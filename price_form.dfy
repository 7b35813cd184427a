/**
 * The POST checks at the top of the price updater: the price-list path, the
 * CSV header labels, the matrix options and the default manufacturer.
 * Filesystem answers (`is_file`, the MIME type) are parameters.
 */
module PriceForm {
  import opened Wrappers
  import opened PhpText

  /** `PATH`: where price lists are kept; it ends with '/'. */
  const PRICE_LIST_DIR: string := "/home/yourname/public_html/prices/"

  /** `MATRIX_STATUS_ON` as shipped. */
  const MATRIX_STATUS_ON: bool := false

  // ---------------------------------------------------------------------
  // The price-list file.

  datatype FileError =
    | FileRequired               // '* Required field'
    | InvalidFilePath            // '* Invalid file path'
    | FileNotFound               // '* Invalid file path or file name'
    | InvalidFileType(mime: string)  // '* Invalid file type: ...'

  /**
   * The `file` field: blank (after `trim`) or "0" is missing, any ".." is
   * refused, then slashes and backslashes are stripped from both ends and
   * the file under `PATH` must exist and be plain text.
   */
  function CheckPriceList(posted: string, isFile: string -> bool, mimeType: string -> string): (r: Result<string, FileError>)
    ensures var file := Trim(posted, IsTrimSpace);
      && (PhpEmpty(file) <==> r == Err(FileRequired))
      && (!PhpEmpty(file) && HasDotDot(file) <==> r == Err(InvalidFilePath))
    ensures r.Ok? ==> && !HasDotDot(r.value)
                      && (r.value == [] || (!IsSlash(r.value[0]) && !IsSlash(r.value[|r.value| - 1])))
                      && isFile(PRICE_LIST_DIR + r.value)
                      && mimeType(PRICE_LIST_DIR + r.value) == "text/plain"
    ensures var file := Trim(posted, IsTrimSpace); var path := PRICE_LIST_DIR + Trim(file, IsSlash);
      !PhpEmpty(file) && !HasDotDot(file) ==>
        && (r == Err(FileNotFound) <==> !isFile(path))
        && (r == Err(InvalidFileType(mimeType(path))) <==> isFile(path) && mimeType(path) != "text/plain")
        && (r.Ok? <==> isFile(path) && mimeType(path) == "text/plain")
        && (r.Ok? ==> r.value == Trim(file, IsSlash))
  {
    var file := Trim(posted, IsTrimSpace);
    if PhpEmpty(file) then Err(FileRequired)
    else if HasDotDot(file) then Err(InvalidFilePath)
    else
      var name := Trim(file, IsSlash);
      TrimSplits(file, IsSlash);
      NoDotDotInSlice(file, TrimStart(file, IsSlash), KeepLen(file, IsSlash));
      if !isFile(PRICE_LIST_DIR + name) then Err(FileNotFound)
      else if mimeType(PRICE_LIST_DIR + name) != "text/plain" then Err(InvalidFileType(mimeType(PRICE_LIST_DIR + name)))
      else Ok(name)
  }

  /**
   * An accepted name is the trimmed input with only slashes and backslashes
   * taken off its two ends: nothing inside it is touched.
   */
  lemma {:induction false} PriceListNameIsTrimmedInput(posted: string, isFile: string -> bool, mimeType: string -> string)
    requires CheckPriceList(posted, isFile, mimeType).Ok?
    ensures var file := Trim(posted, IsTrimSpace);
      var name := CheckPriceList(posted, isFile, mimeType).value;
      exists lead, trail :: file == lead + name + trail && AllIn(lead, IsSlash) && AllIn(trail, IsSlash)
  {
    var file := Trim(posted, IsTrimSpace);
    var name := Trim(file, IsSlash);
    assert CheckPriceList(posted, isFile, mimeType).value == name;
    TrimAround(file, IsSlash);
  }

  // ---------------------------------------------------------------------
  // Header labels.

  /** The header-label keys the form marks as required. */
  const REQUIRED_LABELS: set<string> := {"product_code", "list_price", "sale_price"}

  datatype LabelError =
    | LabelRequired     // '* Required field'
    | LabelCharacters   // '* Only letters, digits, spaces, hyphens, and underscores are allowed'

  /** `[a-z0-9-_\040]` under `/i`. */
  predicate LabelChar(c: char) {
    IsAsciiLetter(c) || IsDigit(c) || c == '-' || c == '_' || c == ' '
  }

  /** The check of one `header_labels[$k] => $v` pair. */
  function CheckLabel(k: string, v: string): (r: Option<LabelError>)
    ensures r == Some(LabelRequired) <==> PhpEmpty(v) && k in REQUIRED_LABELS
    ensures r == None <==> !(PhpEmpty(v) && k in REQUIRED_LABELS) && WholeMatch(v, LabelChar, 1)
  {
    if PhpEmpty(v) && k in REQUIRED_LABELS then Some(LabelRequired)
    else if !WholeMatch(v, LabelChar, 1) then Some(LabelCharacters)
    else None
  }

  /** An empty label is always an error: "Required field" when required, the character error otherwise. */
  lemma {:induction false} EmptyLabelRejected(k: string)
    ensures CheckLabel(k, "") == Some(if k in REQUIRED_LABELS then LabelRequired else LabelCharacters)
  {
  }

  /** A label without a trailing newline passes exactly when it is non-empty and every character is allowed (and it is not a required "0"). */
  lemma {:induction false} LabelAcceptedIff(k: string, v: string)
    requires v == [] || v[|v| - 1] != '\n'
    ensures CheckLabel(k, v) == None <==>
      && |v| > 0 && (forall i :: 0 <= i < |v| ==> LabelChar(v[i]))
      && !(v == "0" && k in REQUIRED_LABELS)
  {
  }

  datatype HeaderErrors =
    | LabelsMissing                               // '* Please enter valid header labels'
    | PerLabel(errors: map<string, LabelError>)

  /** `header_labels` as posted: None when it is not an array. */
  function CheckHeaderLabels(posted: Option<map<string, string>>): (r: HeaderErrors)
    ensures posted.None? <==> r == LabelsMissing
    ensures posted.Some? ==> r.errors.Keys <= posted.value.Keys
    ensures posted.Some? ==> forall k :: k in posted.value ==>
      (k in r.errors <==> CheckLabel(k, posted.value[k]).Some?) &&
      (k in r.errors ==> r.errors[k] == CheckLabel(k, posted.value[k]).value)
  {
    match posted
    case None => LabelsMissing
    case Some(labels) =>
      PerLabel(map k | k in labels && CheckLabel(k, labels[k]).Some? :: CheckLabel(k, labels[k]).value)
  }

  // ---------------------------------------------------------------------
  // Matrix options.

  datatype MatrixError =
    | MatrixRequired    // 'You must check Update price entries in the option matrix ...'
    | MatrixStatusOff   // 'You must enable MATRIX_STATUS_ON ...'

  /**
   * The `matrix_options` error key: the main-price and disable options need
   * the matrix option, and the matrix option needs `MATRIX_STATUS_ON`; the
   * second check writes the same key as the first.
   */
  function CheckMatrixOptions(updateMatrix: bool, updateMainPrice: bool, disableProducts: bool, statusOn: bool): (r: Option<MatrixError>)
    ensures r == None <==> (updateMatrix ==> statusOn) && (!updateMatrix ==> !updateMainPrice && !disableProducts)
    ensures r == Some(MatrixStatusOff) <==> updateMatrix && !statusOn
    ensures r == Some(MatrixRequired) <==> !updateMatrix && (updateMainPrice || disableProducts)
  {
    var first := if !updateMatrix && (updateMainPrice || disableProducts) then Some(MatrixRequired) else None;
    if updateMatrix && !statusOn then Some(MatrixStatusOff) else first
  }

  /** As shipped (`MATRIX_STATUS_ON` false) no matrix option at all can be used. */
  lemma {:induction false} ShippedMatrixOptions(updateMatrix: bool, updateMainPrice: bool, disableProducts: bool)
    ensures CheckMatrixOptions(updateMatrix, updateMainPrice, disableProducts, MATRIX_STATUS_ON) == None
            <==> !updateMatrix && !updateMainPrice && !disableProducts
  {
  }

  // ---------------------------------------------------------------------
  // Default manufacturer.

  datatype ManufacturerError =
    | ManufacturerRequired     // '* Required field'
    | ManufacturerCharacters   // '* Only letters, digits, spaces, hyphens, underscores, and the ampersand (&) are allowed'

  /** `[a-z0-9-_\040&]` under `/i`. */
  predicate ManufacturerChar(c: char) {
    LabelChar(c) || c == '&'
  }

  /** The `manufacturer` field; None when it was not posted. */
  function CheckManufacturer(posted: Option<string>): (r: Option<ManufacturerError>)
    ensures r == Some(ManufacturerRequired) <==> posted.None? || PhpEmpty(posted.value)
    ensures r == None <==> posted.Some? && posted.value != "0" && WholeMatch(posted.value, ManufacturerChar, 1)
  {
    if posted.None? || PhpEmpty(posted.value) then Some(ManufacturerRequired)
    else if !WholeMatch(posted.value, ManufacturerChar, 1) then Some(ManufacturerCharacters)
    else None
  }
}
