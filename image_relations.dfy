/**
 * The decision logic of `addImageRelationships`: given the product and
 * option-matrix rows the database matched against an image's file name,
 * decide which products get a product:image relation and which matrix
 * entries get the image, and whether anything was added at all.
 *
 * The rows of the `find_products` query and the product ids that already
 * have a relation to the file are inputs; a custom regular expression is an
 * uninterpreted predicate on product codes.
 */
module ImageRelations {
  import opened Wrappers
  import opened PhpText
  import ImageForm

  /** The options `addImageRelationships` reads. */
  datatype RelationOptions = RelationOptions(
    addProduct: bool,
    addProductMatrix: bool,
    updateMatrix: bool,
    dryRun: bool,
    forceUpdate: bool,
    allowVariants: bool,
    codeSuffix: string,
    regexp: string)

  /** One row of `find_products`; None is SQL NULL. */
  datatype Match = Match(
    productId: int,
    productCode: string,
    matrixId: Option<int>,
    matrixProductCode: Option<string>,
    matrixImageFileId: Option<int>)

  /** A change `addImageRelationships` makes (or, on a dry run, counts without making). */
  datatype Action = AddProductImage(productId: int) | SetMatrixImage(matrixId: int)

  /** `!empty($v)` for a nullable id column. */
  predicate Filled(v: Option<int>) {
    v.Some? && v.value != 0
  }

  /** Whether any kind of relationship is asked for. */
  predicate AnyRelation(o: RelationOptions) {
    o.addProduct || o.addProductMatrix || o.updateMatrix
  }

  /** The suffix the variant pattern uses: none unless variants are allowed and a suffix is given. */
  function Suffix(o: RelationOptions): string {
    if !o.allowVariants || PhpEmpty(o.codeSuffix) then "" else o.codeSuffix
  }

  predicate AllDigits(s: string) {
    forall i :: 0 <= i < |s| ==> IsDigit(s[i])
  }

  /** `(-|_)?[0-9]+`, matched against a whole string. */
  predicate VariantTail(t: string) {
    (|t| > 0 && AllDigits(t)) || (|t| > 1 && (t[0] == '-' || t[0] == '_') && AllDigits(t[1..]))
  }

  /** `pc`, case-insensitively, then the suffix, case-insensitively, then a variant tail. */
  predicate VariantBody(s: string, pc: string, suffix: string) {
    && |s| >= |pc| + |suffix|
    && EqualsIgnoreCase(s[..|pc|], pc)
    && EqualsIgnoreCase(s[|pc|..|pc| + |suffix|], suffix)
    && VariantTail(s[|pc| + |suffix|..])
  }

  /** A pattern ending in `$` without the D modifier also accepts one final newline. */
  predicate AtEnd(s: string, body: string -> bool) {
    body(s) || (|s| > 0 && s[|s| - 1] == '\n' && body(s[..|s| - 1]))
  }

  /**
   * `preg_match("/^$product_code$suffix$var_match$/i", $code)`, with the
   * variant part only when there is a suffix, and the product code and the
   * suffix taken literally.
   */
  predicate PatternMatch(o: RelationOptions, pc: string, code: string)
    ensures PatternMatch(o, pc, code) ==> |code| >= |pc| && EqualsIgnoreCase(code[..|pc|], pc)
  {
    var suffix := Suffix(o);
    if suffix == "" then AtEnd(code, s => EqualsIgnoreCase(s, pc))
    else AtEnd(code, s => VariantBody(s, pc, suffix))
  }

  /**
   * Whether a row's product counts as matching the file: the same code, or
   * else the variant pattern (no custom regexp) or the custom regexp applied
   * to the product code.
   */
  predicate ProductMatch(o: RelationOptions, customMatch: string -> bool, pc: string, code: string)
    ensures pc == code ==> ProductMatch(o, customMatch, pc, code)
    ensures PhpEmpty(o.regexp) && ProductMatch(o, customMatch, pc, code) ==>
      |code| >= |pc| && EqualsIgnoreCase(code[..|pc|], pc)
  {
    pc == code ||
    (if PhpEmpty(o.regexp) then PatternMatch(o, pc, code) else customMatch(pc))
  }

  /** The index of the first row whose product differs from the first row's, if any. */
  function FirstForeign(ms: seq<Match>): (r: Option<nat>)
    ensures r.Some? ==> 0 < r.value < |ms| && ms[r.value].productId != ms[0].productId
                        && forall j :: 0 <= j < r.value ==> ms[j].productId == ms[0].productId
    ensures r.None? ==> forall j :: 0 <= j < |ms| ==> ms[j].productId == ms[0].productId
  {
    if |ms| <= 1 then None
    else
      var r := FirstForeign(ms[..|ms| - 1]);
      if r.Some? then Some(r.value)
      else if ms[|ms| - 1].productId != ms[0].productId then Some(|ms| - 1)
      else None
  }

  /** Whether a row's product qualifies for a product:image relation. */
  predicate Qualifies(o: RelationOptions, code: string, customMatch: string -> bool, m: Match) {
    (ProductMatch(o, customMatch, m.productCode, code) && o.addProduct) || (Filled(m.matrixId) && o.addProductMatrix)
  }

  /** The product:image part of a row; `seen` are the keys of `$relations`. */
  function ProductPart(o: RelationOptions, code: string, existing: set<int>, customMatch: string -> bool,
                       seen: set<int>, m: Match): (acts: seq<Action>)
    ensures acts == [] || acts == [AddProductImage(m.productId)]
    ensures acts != [] <==> m.productId !in seen && m.productId !in existing && Qualifies(o, code, customMatch, m)
  {
    if m.productId in seen || m.productId in existing then []
    else if Qualifies(o, code, customMatch, m) then [AddProductImage(m.productId)]
    else []
  }

  /** The matrix-image part of a row. */
  function MatrixPart(o: RelationOptions, m: Match): (acts: seq<Action>)
    ensures acts == [] || (m.matrixId.Some? && acts == [SetMatrixImage(m.matrixId.value)])
    ensures acts != [] <==> o.updateMatrix && Filled(m.matrixId) && (!Filled(m.matrixImageFileId) || o.forceUpdate)
  {
    if o.updateMatrix && Filled(m.matrixId) && !(Filled(m.matrixImageFileId) && !o.forceUpdate)
    then [SetMatrixImage(m.matrixId.value)]
    else []
  }

  /** The relationship loop over the first `k` rows. */
  function Relate(o: RelationOptions, code: string, existing: set<int>, customMatch: string -> bool,
                  ms: seq<Match>, k: nat): (seq<Action>, set<int>)
    requires k <= |ms|
  {
    if k == 0 then ([], {})
    else
      var prev := Relate(o, code, existing, customMatch, ms, k - 1);
      var m := ms[k - 1];
      (prev.0 + ProductPart(o, code, existing, customMatch, prev.1, m) + MatrixPart(o, m), prev.1 + {m.productId})
  }

  /** Each row adds at most two changes: one product:image relation and one matrix image. */
  lemma {:induction false} RelateBounds(o: RelationOptions, code: string, existing: set<int>, customMatch: string -> bool,
                                        ms: seq<Match>, k: nat)
    requires k <= |ms|
    ensures |Relate(o, code, existing, customMatch, ms, k).0| <= 2 * k
  {
    for j := 0 to k
      invariant |Relate(o, code, existing, customMatch, ms, j).0| <= 2 * j
    {
      var prev := Relate(o, code, existing, customMatch, ms, j);
      var m := ms[j];
      assert Relate(o, code, existing, customMatch, ms, j + 1).0
          == prev.0 + ProductPart(o, code, existing, customMatch, prev.1, m) + MatrixPart(o, m);
    }
  }

  /** The outcome: the returned boolean, the changes made, and the two rows of a multi-product error. */
  datatype Outcome = Outcome(added: bool, actions: seq<Action>, conflict: Option<(Match, Match)>)

  /** `addImageRelationships` as a whole. */
  function Relations(file: string, o: RelationOptions, ms: seq<Match>, existing: set<int>, customMatch: string -> bool): Outcome {
    if !AnyRelation(o) then Outcome(false, [], None)
    else if PhpEmpty(o.regexp) && FirstForeign(ms).Some? then
      Outcome(false, [], Some((ms[0], ms[FirstForeign(ms).value])))
    else
      var actions := Relate(o, ImageForm.ProductCode(file), existing, customMatch, ms, |ms|).0;
      Outcome(actions != [], actions, None)
  }

  // ---------------------------------------------------------------------------
  // What the decision logic promises
  // ---------------------------------------------------------------------------

  /** The rows seen are exactly the products of the first `k` rows. */
  lemma {:induction false} RelateSeen(o: RelationOptions, code: string, existing: set<int>, customMatch: string -> bool, ms: seq<Match>, k: nat, p: int)
    requires k <= |ms|
    ensures p in Relate(o, code, existing, customMatch, ms, k).1 <==> exists i :: 0 <= i < k && ms[i].productId == p
  {
    if k > 0 {
      RelateSeen(o, code, existing, customMatch, ms, k - 1, p);
      if exists i :: 0 <= i < k && ms[i].productId == p {
        var i :| 0 <= i < k && ms[i].productId == p;
        if i < k - 1 {
          assert exists i :: 0 <= i < k - 1 && ms[i].productId == p;
        }
      }
    }
  }

  /** Row `i` is the first row of its product, which has no relation to the file and qualifies for one. */
  predicate ProductRelationAt(o: RelationOptions, code: string, existing: set<int>, customMatch: string -> bool, ms: seq<Match>, i: nat)
    requires i < |ms|
  {
    var m := ms[i];
    && (forall j :: 0 <= j < i ==> ms[j].productId != m.productId)
    && m.productId !in existing
    && Qualifies(o, code, customMatch, m)
  }

  /** A product:image relation is added for `p` exactly when the first row of product `p` qualifies and `p` has none yet. */
  lemma {:induction false} ProductRelationExact(o: RelationOptions, code: string, existing: set<int>, customMatch: string -> bool, ms: seq<Match>, k: nat, p: int)
    requires k <= |ms|
    ensures AddProductImage(p) in Relate(o, code, existing, customMatch, ms, k).0 <==>
      exists i :: 0 <= i < k && ms[i].productId == p && ProductRelationAt(o, code, existing, customMatch, ms, i)
  {
    if k > 0 {
      var n := k - 1;
      ProductRelationExact(o, code, existing, customMatch, ms, n, p);
      var prev := Relate(o, code, existing, customMatch, ms, n);
      var m := ms[n];
      RelateSeen(o, code, existing, customMatch, ms, n, m.productId);
      var pa := ProductPart(o, code, existing, customMatch, prev.1, m);
      var ma := MatrixPart(o, m);
      assert Relate(o, code, existing, customMatch, ms, k).0 == prev.0 + pa + ma;
      assert AddProductImage(p) !in ma;
      if exists i :: 0 <= i < k && ms[i].productId == p && ProductRelationAt(o, code, existing, customMatch, ms, i) {
        var i :| 0 <= i < k && ms[i].productId == p && ProductRelationAt(o, code, existing, customMatch, ms, i);
        if i < n {
          assert exists i :: 0 <= i < n && ms[i].productId == p && ProductRelationAt(o, code, existing, customMatch, ms, i);
        } else {
          assert pa == [AddProductImage(p)];
        }
      }
      if AddProductImage(p) in pa {
        assert ProductRelationAt(o, code, existing, customMatch, ms, n);
      }
    }
  }

  /** The matrix image of an entry is set exactly when matrix updates are on and the entry has no image or overwriting is forced. */
  lemma {:induction false} MatrixImageExact(o: RelationOptions, code: string, existing: set<int>, customMatch: string -> bool, ms: seq<Match>, k: nat, mid: int)
    requires k <= |ms|
    ensures SetMatrixImage(mid) in Relate(o, code, existing, customMatch, ms, k).0 <==>
      exists i :: 0 <= i < k && o.updateMatrix && ms[i].matrixId == Some(mid) && mid != 0
                             && (!Filled(ms[i].matrixImageFileId) || o.forceUpdate)
  {
    if k > 0 {
      var n := k - 1;
      MatrixImageExact(o, code, existing, customMatch, ms, n, mid);
      var prev := Relate(o, code, existing, customMatch, ms, n);
      var m := ms[n];
      var pa := ProductPart(o, code, existing, customMatch, prev.1, m);
      var ma := MatrixPart(o, m);
      assert Relate(o, code, existing, customMatch, ms, k).0 == prev.0 + pa + ma;
      assert SetMatrixImage(mid) !in pa;
      if exists i :: 0 <= i < k && o.updateMatrix && ms[i].matrixId == Some(mid) && mid != 0
                               && (!Filled(ms[i].matrixImageFileId) || o.forceUpdate) {
        var i :| 0 <= i < k && o.updateMatrix && ms[i].matrixId == Some(mid) && mid != 0
                            && (!Filled(ms[i].matrixImageFileId) || o.forceUpdate);
        if i < n {
          assert exists i :: 0 <= i < n && o.updateMatrix && ms[i].matrixId == Some(mid) && mid != 0
                                        && (!Filled(ms[i].matrixImageFileId) || o.forceUpdate);
        } else {
          assert ma == [SetMatrixImage(mid)];
        }
      }
    }
  }

  /** The product:image relations are for distinct products, none of them in `existing`, all of them in `seen`. */
  ghost predicate OncePerProduct(acts: seq<Action>, existing: set<int>, seen: set<int>) {
    && (forall i, j :: 0 <= i < j < |acts| && acts[i].AddProductImage? && acts[j].AddProductImage?
          ==> acts[i].productId != acts[j].productId)
    && (forall i :: 0 <= i < |acts| && acts[i].AddProductImage? ==> acts[i].productId !in existing && acts[i].productId in seen)
  }

  /** Each product gets at most one product:image relation per call, and never one it already has. */
  lemma {:induction false} ProductRelationsOnce(o: RelationOptions, code: string, existing: set<int>, customMatch: string -> bool, ms: seq<Match>, k: nat)
    requires k <= |ms|
    ensures OncePerProduct(Relate(o, code, existing, customMatch, ms, k).0, existing, Relate(o, code, existing, customMatch, ms, k).1)
  {
    if k > 0 {
      var n := k - 1;
      ProductRelationsOnce(o, code, existing, customMatch, ms, n);
      var prev := Relate(o, code, existing, customMatch, ms, n);
      var m := ms[n];
      var pa := ProductPart(o, code, existing, customMatch, prev.1, m);
      var ma := MatrixPart(o, m);
      var acts := prev.0 + pa + ma;
      assert OncePerProduct(prev.0, existing, prev.1);
      assert Relate(o, code, existing, customMatch, ms, k) == (acts, prev.1 + {m.productId});
      forall i | 0 <= i < |acts| && acts[i].AddProductImage?
        ensures acts[i].productId !in existing && acts[i].productId in prev.1 + {m.productId}
      {
        if i < |prev.0| {
          assert acts[i] == prev.0[i];
          assert prev.0[i].AddProductImage?;
          assert prev.0[i].productId !in existing;
          assert prev.0[i].productId in prev.1;
        } else if i < |prev.0| + |pa| {
          assert acts[i] == pa[i - |prev.0|];
        }
      }
      forall i, j | 0 <= i < j < |acts| && acts[i].AddProductImage? && acts[j].AddProductImage?
        ensures acts[i].productId != acts[j].productId
      {
        if |prev.0| <= j < |prev.0| + |pa| {
          assert acts[j] == pa[j - |prev.0|];
          assert pa == [AddProductImage(m.productId)];
          assert i < |prev.0| && acts[i] == prev.0[i];
        } else if j < |prev.0| {
          assert acts[i] == prev.0[i] && acts[j] == prev.0[j];
        }
      }
    }
  }

  /** Without forced updates, an entry that already has an image is left alone. */
  lemma {:induction false} KeepsMatrixImages(o: RelationOptions, code: string, existing: set<int>, customMatch: string -> bool, ms: seq<Match>, mid: int)
    requires !o.forceUpdate
    requires forall i :: 0 <= i < |ms| && ms[i].matrixId == Some(mid) ==> Filled(ms[i].matrixImageFileId)
    ensures SetMatrixImage(mid) !in Relate(o, code, existing, customMatch, ms, |ms|).0
  {
    MatrixImageExact(o, code, existing, customMatch, ms, |ms|, mid);
  }

  /** An exact product code always matches, whatever the options. */
  lemma {:induction false} ExactCodeMatches(o: RelationOptions, customMatch: string -> bool, code: string)
    ensures ProductMatch(o, customMatch, code, code)
  {
  }

  /** Without a usable suffix, the pattern is case-insensitive equality, up to one final newline. */
  lemma {:induction false} PlainPatternIff(o: RelationOptions, pc: string, code: string)
    requires !o.allowVariants || PhpEmpty(o.codeSuffix)
    ensures PatternMatch(o, pc, code) <==>
      EqualsIgnoreCase(code, pc) || (|code| == |pc| + 1 && code[|pc|] == '\n' && EqualsIgnoreCase(code[..|pc|], pc))
  {
  }

  /** A suffix of "0" counts as no suffix: the pattern is the one an empty suffix gives, for every product code and file code. */
  lemma {:induction false} ZeroSuffixIsIgnored(o: RelationOptions, pc: string, code: string)
    ensures PatternMatch(o.(codeSuffix := "0"), pc, code) == PatternMatch(o.(codeSuffix := ""), pc, code)
  {
    assert Suffix(o.(codeSuffix := "0")) == "" == Suffix(o.(codeSuffix := ""));
  }

  /** So with variants allowed and suffix "0", `AB0-1` is not a variant of `AB`. */
  lemma {:induction false} ZeroSuffixExample()
    ensures var o := RelationOptions(true, false, false, false, false, true, "0", "");
      !ProductMatch(o, _ => false, "AB", "AB0-1")
  {
    var o := RelationOptions(true, false, false, false, false, true, "0", "");
    assert Suffix(o) == "";
    assert !EqualsIgnoreCase("AB0-1", "AB");
    assert "AB0-1"[4] != '\n';
  }

  /**
   * With suffix "X": `ABCX-1`, `abcx12` and `abcx-12` are variants of `ABC`;
   * `ABCX` is not, for want of digits, and `ABC-1` is not, for want of the suffix.
   */
  lemma {:induction false} VariantExamples()
    ensures var o := RelationOptions(true, false, false, false, false, true, "X", "");
      && ProductMatch(o, _ => false, "ABC", "ABCX-1")
      && ProductMatch(o, _ => false, "ABC", "abcx12")
      && ProductMatch(o, _ => false, "ABC", "abcx-12")
      && !ProductMatch(o, _ => false, "ABC", "ABCX")
      && !ProductMatch(o, _ => false, "ABC", "ABC-1")
  {
    var o := RelationOptions(true, false, false, false, false, true, "X", "");
    assert Suffix(o) == "X";
    var s1 := "ABCX-1";
    assert s1[..3] == "ABC" && s1[3..4] == "X" && s1[4..] == "-1" && s1[4..][1..] == "1";
    assert VariantBody(s1, "ABC", "X");
    var s2 := "abcx12";
    assert s2[..3] == "abc" && s2[3..4] == "x" && s2[4..] == "12";
    assert VariantBody(s2, "ABC", "X");
    var s3 := "abcx-12";
    assert s3[..3] == "abc" && s3[3..4] == "x" && s3[4..] == "-12" && s3[4..][1..] == "12";
    assert VariantBody(s3, "ABC", "X");
    var t := "ABCX";
    assert t[4..] == "";
    assert !VariantBody(t, "ABC", "X");
    assert t[3] != '\n';
    var u := "ABC-1";
    assert u[3..4] == "-" && !EqualsIgnoreCase(u[3..4], "X");
    assert !VariantBody(u, "ABC", "X");
    assert u[4] != '\n';
  }

  /** A variant match starts with the product code, ignoring case, and ends in a digit or a digit and a newline. */
  lemma {:induction false} VariantShape(o: RelationOptions, pc: string, code: string)
    requires Suffix(o) != "" && PatternMatch(o, pc, code)
    ensures |code| > |pc| && EqualsIgnoreCase(code[..|pc|], pc)
    ensures IsDigit(code[|code| - 1]) || (code[|code| - 1] == '\n' && |code| > 1 && IsDigit(code[|code| - 2]))
  {
    var suffix := Suffix(o);
    var body := if VariantBody(code, pc, suffix) then code else code[..|code| - 1];
    assert VariantBody(body, pc, suffix);
    var t := body[|pc| + |suffix|..];
    assert IsDigit(t[|t| - 1]);
    assert t[|t| - 1] == body[|body| - 1];
    assert body[..|pc|] == code[..|pc|];
  }

  // ---------------------------------------------------------------------------
  // The function itself
  // ---------------------------------------------------------------------------

  /** The loop that checks that all rows belong to one product. */
  method FindForeign(ms: seq<Match>) returns (r: Option<nat>)
    ensures r == FirstForeign(ms)
  {
    if ms == [] {
      return None;
    }
    for i := 1 to |ms|
      invariant forall j :: 0 <= j < i ==> ms[j].productId == ms[0].productId
    {
      if ms[i].productId != ms[0].productId {
        return Some(i);
      }
    }
    return None;
  }

  /** The relationship loop: `$relations` and the `$added` counter. */
  method BuildRelations(o: RelationOptions, code: string, existing: set<int>, customMatch: string -> bool, ms: seq<Match>)
    returns (actions: seq<Action>, added: nat)
    ensures actions == Relate(o, code, existing, customMatch, ms, |ms|).0
    ensures added == |actions|
  {
    var relations: set<int> := {};
    added := 0;
    actions := [];
    for i := 0 to |ms|
      invariant (actions, relations) == Relate(o, code, existing, customMatch, ms, i)
      invariant added == |actions|
    {
      var m := ms[i];
      ghost var before := actions;
      ghost var seen := relations;
      if m.productId !in relations {
        relations := relations + {m.productId};
        if m.productId !in existing {
          var productMatch := m.productCode == code;
          if !productMatch {
            productMatch := if PhpEmpty(o.regexp) then PatternMatch(o, m.productCode, code) else customMatch(m.productCode);
          }
          if (productMatch && o.addProduct) || (Filled(m.matrixId) && o.addProductMatrix) {
            actions := actions + [AddProductImage(m.productId)];
            added := added + 1;
          }
        }
      }
      assert actions == before + ProductPart(o, code, existing, customMatch, seen, m);
      ghost var middle := actions;
      if o.updateMatrix && Filled(m.matrixId) {
        if !(Filled(m.matrixImageFileId) && !o.forceUpdate) {
          actions := actions + [SetMatrixImage(m.matrixId.value)];
          added := added + 1;
        }
      }
      assert actions == middle + MatrixPart(o, m);
      assert relations == seen + {m.productId};
      assert Relate(o, code, existing, customMatch, ms, i + 1)
          == (before + ProductPart(o, code, existing, customMatch, seen, m) + MatrixPart(o, m), seen + {m.productId});
    }
  }

  /**
   * `addImageRelationships($file, $file_id, $stmts, $options, $message)`.
   * `ms` are the rows of `find_products` for the file, `existing` the products
   * `relation_exists` reports as already related to it. Query failures and
   * the messages are not modelled.
   */
  method AddImageRelationships(file: string, o: RelationOptions, ms: seq<Match>, existing: set<int>, customMatch: string -> bool)
    returns (added: bool, actions: seq<Action>, conflict: Option<(Match, Match)>)
    ensures !AnyRelation(o) ==> !added && actions == [] && conflict == None
    ensures AnyRelation(o) && PhpEmpty(o.regexp) && FirstForeign(ms).Some? ==>
      !added && actions == [] && conflict == Some((ms[0], ms[FirstForeign(ms).value]))
    ensures conflict.None? && AnyRelation(o) ==>
      actions == Relate(o, ImageForm.ProductCode(file), existing, customMatch, ms, |ms|).0
    ensures added <==> actions != []
    ensures Outcome(added, actions, conflict) == Relations(file, o, ms, existing, customMatch)
  {
    if !o.addProduct && !o.addProductMatrix && !o.updateMatrix {
      return false, [], None;
    }
    var code := ImageForm.ProductCode(file);
    if PhpEmpty(o.regexp) {
      var foreign := FindForeign(ms);
      if foreign.Some? {
        return false, [], Some((ms[0], ms[foreign.value]));
      }
    }
    var count;
    actions, count := BuildRelations(o, code, existing, customMatch, ms);
    return count > 0, actions, None;
  }
}
