/**
 * The string stage of `getAmount`: strip a currency string down to digits
 * and separators, then erase every separator but the last. The `(float)`
 * cast that follows is not part of this model.
 */
module Currency {
  import opened PhpText

  predicate IsSeparator(c: char) {
    c == '.' || c == ','
  }

  /** `preg_replace('/([^0-9\.,])/i', '', $money)`. */
  function CleanString(s: string): (r: string)
    ensures |r| <= |s|
    ensures forall i :: 0 <= i < |r| ==> IsDigit(r[i]) || IsSeparator(r[i])
  {
    if s == [] then []
    else (if IsDigit(s[0]) || IsSeparator(s[0]) then [s[0]] else []) + CleanString(s[1..])
  }

  /** `preg_replace('/([^0-9])/i', '', $money)`. */
  function Digits(s: string): (r: string)
    ensures |r| <= |s|
  {
    if s == [] then []
    else (if IsDigit(s[0]) then [s[0]] else []) + Digits(s[1..])
  }

  function Separators(s: string): nat {
    if s == [] then 0 else (if IsSeparator(s[0]) then 1 else 0) + Separators(s[1..])
  }

  /**
   * `preg_replace('/([,\.])/', '', $s, $limit)`: erase the first `limit`
   * separators; PHP's -1 (any negative here) means no limit and 0 erases none.
   */
  function EraseSeparators(s: string, limit: int): (r: string)
    ensures |r| <= |s|
    ensures limit >= 0 ==> |s| - |r| <= limit
    ensures limit == 0 ==> r == s
  {
    if s == [] then []
    else if IsSeparator(s[0]) && limit != 0 then EraseSeparators(s[1..], if limit > 0 then limit - 1 else limit)
    else [s[0]] + EraseSeparators(s[1..], limit)
  }

  /** The string `getAmount` hands to the `(float)` cast. */
  function AmountString(money: string): (r: string)
    ensures |r| <= |CleanString(money)| <= |money|
  {
    var clean := CleanString(money);
    var onlyNumbers := Digits(money);
    EraseSeparators(clean, |clean| - |onlyNumbers| - 1)
  }

  /**
   * Reference definition of the result: the digits of the cleaned string with
   * only its last separator kept in place.
   */
  function KeepLastSeparator(s: string): (r: string) {
    var i := LastSeparator(s);
    if i < 0 then Digits(s) else Digits(s[..i]) + [s[i]] + Digits(s[i + 1..])
  }

  /** Index of the last '.' or ',' in `s`, or -1 when there is none. */
  function LastSeparator(s: string): (i: int)
    ensures -1 <= i < |s|
    ensures i >= 0 ==> IsSeparator(s[i])
    ensures forall j :: i < j < |s| ==> !IsSeparator(s[j])
  {
    if s == [] then -1
    else if IsSeparator(s[|s| - 1]) then |s| - 1
    else
      var i := LastSeparator(s[..|s| - 1]);
      assert forall j :: i < j < |s| - 1 ==> s[..|s| - 1][j] == s[j];
      i
  }

  /** A string with no separator character counts none. */
  lemma {:induction false} NoSeparators(t: string)
    requires forall j :: 0 <= j < |t| ==> !IsSeparator(t[j])
    ensures Separators(t) == 0
  {
    if t != [] {
      assert forall j :: 0 <= j < |t[1..]| ==> t[1..][j] == t[j + 1];
      NoSeparators(t[1..]);
    }
  }

  // ---------------------------------------------------------------------

  lemma {:induction false} DigitsAppend(a: string, b: string)
    ensures Digits(a + b) == Digits(a) + Digits(b)
  {
    if a == [] {
      assert a + b == b;
    } else {
      var h := if IsDigit(a[0]) then [a[0]] else [];
      assert (a + b)[0] == a[0];
      assert (a + b)[1..] == a[1..] + b;
      assert Digits(a + b) == h + Digits(a[1..] + b);
      DigitsAppend(a[1..], b);
      assert h + (Digits(a[1..]) + Digits(b)) == (h + Digits(a[1..])) + Digits(b);
    }
  }

  lemma {:induction false} SeparatorsAppend(a: string, b: string)
    ensures Separators(a + b) == Separators(a) + Separators(b)
  {
    if a == [] {
      assert a + b == b;
    } else {
      assert (a + b)[0] == a[0];
      assert (a + b)[1..] == a[1..] + b;
      SeparatorsAppend(a[1..], b);
    }
  }

  /** Cleaning keeps the digits and the separators, and the count of the cleaned string splits into the two. */
  lemma {:induction false} CleanCounts(s: string)
    ensures Digits(CleanString(s)) == Digits(s)
    ensures Separators(CleanString(s)) == Separators(s)
    ensures |CleanString(s)| == |Digits(s)| + Separators(s)
  {
    if s != [] {
      CleanCounts(s[1..]);
      var head := if IsDigit(s[0]) || IsSeparator(s[0]) then [s[0]] else [];
      assert CleanString(s) == head + CleanString(s[1..]);
      DigitsAppend(head, CleanString(s[1..]));
      SeparatorsAppend(head, CleanString(s[1..]));
      assert Digits(head) == if IsDigit(s[0]) then [s[0]] else [];
    }
  }

  /** Erasing separators never touches the digits. */
  lemma {:induction false} EraseKeepsDigits(s: string, limit: int)
    ensures Digits(EraseSeparators(s, limit)) == Digits(s)
  {
    if s != [] {
      EraseKeepsDigits(s[1..], if IsSeparator(s[0]) && limit > 0 then limit - 1 else limit);
      if !(IsSeparator(s[0]) && limit != 0) {
        assert EraseSeparators(s, limit) == [s[0]] + EraseSeparators(s[1..], limit);
        DigitsAppend([s[0]], EraseSeparators(s[1..], limit));
      }
    }
  }

  /** With no limit left, a string without separators comes through as its digits. */
  lemma {:induction false} EraseNoSeparators(s: string, limit: int)
    requires Separators(s) == 0
    requires forall i :: 0 <= i < |s| ==> IsDigit(s[i]) || IsSeparator(s[i])
    ensures EraseSeparators(s, limit) == Digits(s) == s
  {
    if s != [] {
      EraseNoSeparators(s[1..], limit);
    }
  }

  /** A limit of 0 erases nothing. */
  lemma {:induction false} EraseNone(s: string)
    ensures EraseSeparators(s, 0) == s
  {
    if s != [] {
      EraseNone(s[1..]);
      assert s == [s[0]] + s[1..];
    }
  }

  /** On digits and separators, a limit equal to the separator count erases them all. */
  lemma {:induction false} EraseExact(s: string)
    requires forall i :: 0 <= i < |s| ==> IsDigit(s[i]) || IsSeparator(s[i])
    ensures EraseSeparators(s, Separators(s)) == Digits(s)
  {
    if s != [] {
      var t := s[1..];
      assert forall i :: 0 <= i < |t| ==> t[i] == s[i + 1];
      EraseExact(t);
      if IsSeparator(s[0]) {
        assert Separators(s) == Separators(t) + 1;
        assert EraseSeparators(s, Separators(s)) == EraseSeparators(t, Separators(t));
        assert Digits(s) == Digits(t);
      } else {
        assert Separators(s) == Separators(t);
        assert EraseSeparators(s, Separators(s)) == [s[0]] + EraseSeparators(t, Separators(t));
        assert Digits(s) == [s[0]] + Digits(t);
      }
    }
  }

  /** A limit the prefix uses up exactly leaves the suffix untouched by further erasing. */
  lemma {:induction false} EraseAppend(a: string, b: string)
    ensures EraseSeparators(a + b, Separators(a)) == EraseSeparators(a, Separators(a)) + EraseSeparators(b, 0)
  {
    if a == [] {
      assert a + b == b;
    } else {
      var t := a[1..];
      assert (a + b)[0] == a[0];
      assert (a + b)[1..] == t + b;
      EraseAppend(t, b);
      if IsSeparator(a[0]) {
        assert Separators(a) == Separators(t) + 1;
        assert EraseSeparators(a + b, Separators(a)) == EraseSeparators(t + b, Separators(t));
        assert EraseSeparators(a, Separators(a)) == EraseSeparators(t, Separators(t));
      } else {
        var h := [a[0]];
        assert Separators(a) == Separators(t);
        assert EraseSeparators(a + b, Separators(a)) == h + EraseSeparators(t + b, Separators(t));
        assert EraseSeparators(a, Separators(a)) == h + EraseSeparators(t, Separators(t));
        assert h + (EraseSeparators(t, Separators(t)) + EraseSeparators(b, 0))
            == (h + EraseSeparators(t, Separators(t))) + EraseSeparators(b, 0);
      }
    }
  }

  /** Erasing as many separators as `a` holds from `a`, one separator and digits keeps that separator. */
  lemma {:induction false} EraseBeforeLast(a: string, sep: char, c: string)
    requires forall j :: 0 <= j < |a| ==> IsDigit(a[j]) || IsSeparator(a[j])
    requires forall j :: 0 <= j < |c| ==> IsDigit(c[j])
    requires IsSeparator(sep)
    ensures EraseSeparators(a + ([sep] + c), Separators(a)) == Digits(a) + [sep] + c
  {
    var b := [sep] + c;
    EraseAppend(a, b);
    EraseExact(a);
    EraseNone(b);
    assert Digits(a) + ([sep] + c) == Digits(a) + [sep] + c;
  }

  /** A slice of a string of digits and separators holds only digits and separators. */
  lemma {:induction false} SliceDigitsOrSeparators(s: string, lo: int, hi: int)
    requires forall j :: 0 <= j < |s| ==> IsDigit(s[j]) || IsSeparator(s[j])
    requires 0 <= lo <= hi <= |s|
    ensures var t := s[lo..hi]; forall j :: 0 <= j < |t| ==> IsDigit(t[j]) || IsSeparator(t[j])
  {
    var t := s[lo..hi];
    forall j | 0 <= j < |t| ensures IsDigit(t[j]) || IsSeparator(t[j]) {
      assert t[j] == s[lo + j];
    }
  }

  /** After the last separator of a string of digits and separators come digits only. */
  lemma {:induction false} DigitsAfterLast(s: string, i: int)
    requires forall j :: 0 <= j < |s| ==> IsDigit(s[j]) || IsSeparator(s[j])
    requires 0 <= i == LastSeparator(s)
    ensures var c := s[i + 1..]; forall j :: 0 <= j < |c| ==> IsDigit(c[j])
  {
    var c := s[i + 1..];
    forall j | 0 <= j < |c| ensures IsDigit(c[j]) {
      assert c[j] == s[i + 1 + j];
    }
  }

  /** Cutting a string of digits and separators around its last separator. */
  lemma {:induction false} SplitAtLast(s: string, i: int)
    requires forall j :: 0 <= j < |s| ==> IsDigit(s[j]) || IsSeparator(s[j])
    requires 0 <= i == LastSeparator(s)
    ensures s == s[..i] + ([s[i]] + s[i + 1..])
    ensures Separators(s) - 1 == Separators(s[..i])
    ensures Digits(s[i + 1..]) == s[i + 1..]
  {
    var a, c := s[..i], s[i + 1..];
    DigitsAfterLast(s, i);
    assert forall j :: 0 <= j < |c| ==> !IsSeparator(c[j]);
    NoSeparators(c);
    EraseNoSeparators(c, 0);
    assert Separators([s[i]] + c) == 1;
    assert s == a + ([s[i]] + c);
    SeparatorsAppend(a, [s[i]] + c);
  }

  /** On digits and separators, erasing all but one separator keeps exactly the last one. */
  lemma {:induction false} EraseAllButLast(s: string)
    requires forall i :: 0 <= i < |s| ==> IsDigit(s[i]) || IsSeparator(s[i])
    ensures EraseSeparators(s, Separators(s) - 1) == KeepLastSeparator(s)
  {
    var i := LastSeparator(s);
    if i < 0 {
      NoSeparators(s);
      EraseNoSeparators(s, -1);
    } else {
      SplitAtLast(s, i);
      SliceDigitsOrSeparators(s, 0, i);
      DigitsAfterLast(s, i);
      assert s[0..i] == s[..i];
      EraseBeforeLast(s[..i], s[i], s[i + 1..]);
    }
  }

  lemma {:induction false} SeparatorsSplit(s: string, i: int)
    requires 0 <= i < |s| && IsSeparator(s[i])
    ensures Separators(s) >= 1
  {
    assert s == s[..i] + s[i..];
    SeparatorsAppend(s[..i], s[i..]);
  }

  /**
   * `getAmount`'s string stage is the reference definition applied to the
   * cleaned input: the input's digits, in order, with only the last of its
   * separators kept.
   */
  lemma {:induction false} AmountStringKeepsLast(money: string)
    ensures AmountString(money) == KeepLastSeparator(CleanString(money))
  {
    CleanCounts(money);
    EraseAllButLast(CleanString(money));
  }

  /** The result has the input's digits in their original order and at most one separator. */
  lemma {:induction false} AmountStringShape(money: string)
    ensures Digits(AmountString(money)) == Digits(money)
    ensures Separators(AmountString(money)) == (if Separators(money) == 0 then 0 else 1)
  {
    var clean := CleanString(money);
    CleanCounts(money);
    EraseKeepsDigits(clean, |clean| - |Digits(money)| - 1);
    AmountStringKeepsLast(money);
    var i := LastSeparator(clean);
    if i < 0 {
      NoSeparators(clean);
      DigitsOnly(clean);
    } else {
      DigitsOnly(clean[..i]);
      DigitsOnly(clean[i + 1..]);
      SeparatorsAppend(Digits(clean[..i]) + [clean[i]], Digits(clean[i + 1..]));
      SeparatorsAppend(Digits(clean[..i]), [clean[i]]);
      assert Separators(clean) >= 1 by { SeparatorsSplit(clean, i); }
    }
  }

  /** `Digits` keeps digits only, so it holds no separator. */
  lemma {:induction false} DigitsOnly(s: string)
    ensures forall i :: 0 <= i < |Digits(s)| ==> IsDigit(Digits(s)[i])
    ensures Separators(Digits(s)) == 0
  {
    if s != [] {
      DigitsOnly(s[1..]);
      var head := if IsDigit(s[0]) then [s[0]] else [];
      assert Digits(s) == head + Digits(s[1..]);
      SeparatorsAppend(head, Digits(s[1..]));
      assert Separators(head) == 0;
    }
  }
}
