# CubeCart price updater and image importer — a Dafny model

This project models the deterministic core of two stand-alone PHP scripts
for a CubeCart shop:

- `cc_price_updater.php` reads a comma-separated price list. It updates the
  list, cost and sale prices of products and of option-matrix entries. It
  can also touch the modified date, disable matrix entries missing from the
  list, and reset a product's main price to its cheapest matrix entry.
- `cc_image_importer.php` registers image files and associates each one
  with the products, and the matrix entries, whose codes match the file
  name.

What is modelled:

| module | file | models |
|---|---|---|
| `Wrappers` | `wrappers.dfy` | `Option` and `Result` |
| `PhpText` | `php_text.dfy` | the PHP string functions the scripts lean on: `empty()`, `trim`/`ltrim`/`rtrim`, `explode`/`implode`, `strpos(.., '..')`, `strrpos`, ASCII case-insensitive comparison |
| `DirectoryTree` | `directory_tree.dfy` | `treeToHtml`, shared by both scripts |
| `PriceForm` | `price_form.dfy` | the price updater's POST checks |
| `Currency` | `currency.dfy` | the string stage of `getAmount` |
| `Csv` | `csv_importer.dfy` | the `CsvImporter` class: header check, batch reading with `get` |
| `PriceUpdate` | `price_update.dfy` | `updatePrices`: the per-row loop and the per-product post-processing |
| `ImageForm` | `image_form.dfy` | the image importer's POST checks, the single-file split of `addFiles`, `formatName`, the product code taken from a file name |
| `ImageRelations` | `image_relations.dfy` | `addImageRelationships` |

The database is an input, not a store:

- What the `SELECT` statements would return is given as maps and sets (`PriceUpdate.Db`).
- The `affected_rows` of each row's `UPDATE` statements come from an oracle `writes: nat -> RowWrites`, indexed by row number.
- The product/matrix rows found for an image file are a sequence of `ImageRelations.Match`.
- The existing product:image relations are a set of product ids.

Each operation is written as a specification function, usually a fold
over a prefix of the input rows. The imperative code (`Csv.CsvImporter.Get`,
`PriceUpdate.UpdatePrices`, `ImageRelations.AddImageRelationships` and their
helper methods) is proved equal to that function. The properties the
scripts promise are proved about the function.

Where the code and its comments disagree, the model follows the code:

- `CsvImporter::get` reads nothing when `$max_lines` is negative. The
  counter starts at -1, so `-1 < $max_lines` fails at once. Only 0 means
  "all remaining lines" (`Csv.BatchSize`).
- A PCRE `$` without the `D` modifier also matches before one final
  newline. A header label or variant file code ending in "\n" therefore
  passes the `/^...$/` checks (`PhpText.WholeMatch`, `ImageRelations.AtEnd`).
- `$product_id` in `updatePrices` is not reset between rows. In update
  mode, the date check of a row whose product update touched nothing uses
  the id left by an earlier row (`PriceUpdate.RowState.lastMatrix`,
  `PriceUpdate.DateId`).
- The product code of a file name with no '.' is the empty string.
  `strrpos` returns false, which `substr_replace` takes as offset 0
  (`ImageForm.ProductCode`).
- PHP's `empty("0")` holds, with these effects:
  - The posted file name "0" is reported as missing.
  - A `code_suffix` of "0" is ignored (`ImageRelations.ZeroSuffixIsIgnored`).
  - In `treeToHtml`, entries under a top-level directory named "0" lose
    their parent part in their links (`DirectoryTree.ZeroNamedParentLink`).
  - In `addFiles`, the directory "0" loses its '/'. See Findings.

## Model

| member | source | states |
|---|---|---|
| PhpText.TrimSplits | price_updater/cc_price_updater.php:62-68 | `trim` with a character set removes exactly a leading and a trailing run of that set, and what remains neither starts nor ends with it |
| PhpText.TrimAround | price_updater/cc_price_updater.php:67 | the input is the trimmed result with a run of trimmed characters on each side |
| PhpText.NoDotDotInSlice | price_updater/cc_price_updater.php:64-67 | a string without ".." has no ".." in any slice, so trimming after the ".." check cannot create one |
| PhpText.ImplodeExplode | image_importer/cc_image_importer.php:437-439 | `implode` undoes `explode` on the same separator |
| PhpText.ExplodeLast | image_importer/cc_image_importer.php:437-438 | the last piece `explode` yields is the text after the last separator and holds no separator; the others join back to the text before it |
| PhpText.LastIndexOf | image_importer/cc_image_importer.php:546 | `strrpos`: the index of the last occurrence, or -1 when there is none |
| PriceForm.CheckPriceList | price_updater/cc_price_updater.php:62-77 | a blank or "0" name is required and any ".." is an invalid path; otherwise the name stripped of slashes and backslashes at both ends is "not found" iff no such file exists under `PATH`, an invalid file type (carrying its MIME type) iff it exists but is not `text/plain`, and accepted iff it exists and is `text/plain`; an accepted name has no ".." and no slash or backslash at either end |
| PriceForm.PriceListNameIsTrimmedInput | price_updater/cc_price_updater.php:67 | an accepted name is the trimmed input with only slashes and backslashes removed from its two ends |
| PriceForm.CheckLabel | price_updater/cc_price_updater.php:83-89 | "Required field" exactly when a required label is empty; no error exactly when it is not that case and the label matches the allowed character class |
| PriceForm.EmptyLabelRejected | price_updater/cc_price_updater.php:84-88 | an empty label is always refused, as required or for its characters |
| PriceForm.LabelAcceptedIff | price_updater/cc_price_updater.php:86 | a label without a final newline is accepted iff it is non-empty, uses only letters, digits, '-', '_' and space, and is not a required "0" |
| PriceForm.CheckHeaderLabels | price_updater/cc_price_updater.php:78-90 | a non-array is "missing"; otherwise each posted key has an error exactly when its label check fails, and there are no other errors |
| PriceForm.CheckMatrixOptions | price_updater/cc_price_updater.php:129-134 | no error iff the matrix option is on when the main-price or disable option is, and `MATRIX_STATUS_ON` is on when the matrix option is; the second error replaces the first |
| PriceForm.ShippedMatrixOptions | price_updater/cc_price_updater.php:129-134 | with `MATRIX_STATUS_ON` false as shipped, no matrix option can be used |
| PriceForm.CheckManufacturer | price_updater/cc_price_updater.php:135-140 | missing or empty is required; accepted iff it is not "0" and matches the allowed character class (letters, digits, '-', '_', space, '&') |
| Currency.CleanString | price_updater/cc_price_updater.php:783 | the cleaned string keeps only digits, '.' and ',' and is no longer than the input |
| Currency.DigitsOnly | price_updater/cc_price_updater.php:784 | the digits-only string holds digits only, hence no separator |
| Currency.LastSeparator | price_updater/cc_price_updater.php:785-786 | index of the last '.' or ',', with no separator after it; -1 when there is none |
| Currency.CleanCounts | price_updater/cc_price_updater.php:783-785 | cleaning keeps every digit and separator, so the separator count the code computes is the number of separators |
| Currency.EraseSeparators | price_updater/cc_price_updater.php:786 | the limited erase never lengthens the string, removes at most `limit` characters when the limit is not negative, and removes none at limit 0 |
| Currency.AmountString | price_updater/cc_price_updater.php:782-786 | the string `getAmount` casts is no longer than the cleaned input, which is no longer than the input |
| Currency.EraseKeepsDigits | price_updater/cc_price_updater.php:786 | the limited separator erase never removes a digit |
| Currency.EraseAllButLast | price_updater/cc_price_updater.php:786 | erasing all but one separator from a cleaned string is the reference definition: digits with only the last separator kept in place |
| Currency.AmountStringKeepsLast | price_updater/cc_price_updater.php:782-786 | the string `getAmount` casts is the input's digits with only its last separator kept in place |
| Currency.AmountStringShape | price_updater/cc_price_updater.php:782-786 | that string has the input's digits in order and exactly one separator when the input has any, none otherwise |
| DirectoryTree.ChildLink | price_updater/cc_price_updater.php:562 | a child's link is exactly the encoded name when the parent link is PHP-empty; otherwise it starts with the parent link and '/', ends with the encoded name and is exactly that long |
| DirectoryTree.Items | price_updater/cc_price_updater.php:561-572 | the entries of a directory are drawn as nothing iff there are none, and otherwise end with a closing `</li>` |
| DirectoryTree.Item | price_updater/cc_price_updater.php:562-571 | an entry, leaf or branch, is drawn as a list item that ends with `</li>` |
| DirectoryTree.LeafItem | price_updater/cc_price_updater.php:564 | a leaf is one element that opens with `<li` and closes with `</li>` |
| DirectoryTree.TreeToHtml | price_updater/cc_price_updater.php:559-574 | the output is one `<ul ...>...</ul>` list |
| DirectoryTree.TagCount | image_importer/cc_image_importer.php:393-408 | with encoders that emit no '<', the output has 2 tags per list opened and 4 per entry shown |
| DirectoryTree.ItemShape | price_updater/cc_price_updater.php:563-572 | an entry is drawn as a leaf iff it has no sub-directories or the depth limit is reached, and it opens a nested list iff it is a branch within the limit |
| DirectoryTree.NegativeShowsAll | price_updater/cc_price_updater.php:563-568 | a negative `$subnodes` draws every entry at every depth |
| DirectoryTree.PositiveShowsToDepth | price_updater/cc_price_updater.php:563-568 | a positive `$subnodes` draws exactly the entries down to that level |
| DirectoryTree.ZeroShowsTopLevel | image_importer/cc_image_importer.php:397-403 | `$subnodes` 0 draws branches as branches but never opens one: only the top level is shown |
| DirectoryTree.ZeroNamedParentLink | image_importer/cc_image_importer.php:396 | for every child name, the link of a child of a top-level directory "0" is the encoded child name alone, never "0/" followed by it |
| Csv.MissingLabels | price_updater/cc_price_updater.php:891-900 | at most one name is reported per required label, and every name reported is absent from the header row |
| Csv.MissingLabelsExact | price_updater/cc_price_updater.php:891-901 | a name is reported missing iff it is not in the header row and some required label has it |
| Csv.MissingLabelsNone | price_updater/cc_price_updater.php:897-900 | the constructor accepts the header iff every required label is in it |
| Csv.MapRow | price_updater/cc_price_updater.php:920-924 | the keys of a keyed row are exactly the header labels |
| Csv.MapRowAt | price_updater/cc_price_updater.php:920-924 | a keyed row has the header labels as keys, and a label that is not repeated later maps to its column's cell, or to null past the end of the line |
| Csv.Rekey | price_updater/cc_price_updater.php:920-924 | the keyed row built in place over the previous row's array equals the keyed row of this line alone |
| Csv.Records | price_updater/cc_price_updater.php:918-928 | one record per line read: keyed by the header when it was parsed, the raw line otherwise |
| Csv.BatchSize | price_updater/cc_price_updater.php:911-933 | `get(n)` reads min(n, remaining) lines for n > 0, all remaining lines for 0, and none for n < 0 |
| Csv.CsvImporter.Get | price_updater/cc_price_updater.php:911-933 | the read position advances by the batch size and the data is exactly those lines' records |
| Csv.Open | price_updater/cc_price_updater.php:879-903 | an unopenable file, an unreadable header and missing required labels are the three errors; otherwise an importer positioned after the header |
| PriceUpdate.Upsell | price_updater/cc_price_updater.php:597-600 | with upselling allowed and a sale price above the list price, the sale becomes the list price and there is no sale; otherwise both are kept; the list price never goes down |
| PriceUpdate.ParseRow | price_updater/cc_price_updater.php:591-600 | the manufacturer column falls back to the default when blank and is taken as read otherwise; the code is the product-code cell; a cost is read iff its cell is set (`isset`) and is then its amount; a UPC is read iff UPC update is on and the column is not blank, and is then that cell; list and sale are the amounts of their cells after the upsell rule, so the list price is at least its parsed amount |
| PriceUpdate.ProductStepEffect | price_updater/cc_price_updater.php:606-636 | the product part of a row adds the product's prices to `updated` iff the product counts as updated, adds the code to `not_found` iff it missed, and changes nothing else |
| PriceUpdate.MatrixStepEffect | price_updater/cc_price_updater.php:613-657 | the matrix part adds the entry's prices to `updated` and removes the code from `not_found` iff the row matched a matrix entry; it keeps the dates and records at most one new product and one failure, keeping the earlier ones |
| PriceUpdate.StepEffect | price_updater/cc_price_updater.php:601-669 | one row appends its product prices, then its matrix prices, then at most one date entry to `updated`, and records at most one new product and one failure |
| PriceUpdate.FoldBounds | price_updater/cc_price_updater.php:589-670 | after `k` rows at most `k` products have matrix matches and at most `k` failures are recorded |
| PriceUpdate.StepPrices | price_updater/cc_price_updater.php:601-669 | apart from date entries, one row adds exactly its price entries to `updated` |
| PriceUpdate.PricesInOrder | price_updater/cc_price_updater.php:606-669 | `updated` without its date entries is, for each row in file order, the product's prices when it counted as updated followed by the matrix entry's prices when it matched one |
| PriceUpdate.NotFoundExact | price_updater/cc_price_updater.php:606-658 | a code is reported not found iff some row with that code missed, and no later row with that code updated a matrix entry |
| PriceUpdate.IgnoreMissingReportsNone | price_updater/cc_price_updater.php:606-636 | with "ignore missing" set, nothing is reported not found |
| PriceUpdate.DatesAtMostOnce | price_updater/cc_price_updater.php:659-669 | each product's modified date is updated at most once per run, and the recorded ids are exactly those with a date entry |
| PriceUpdate.GroupsExact | price_updater/cc_price_updater.php:613-648 | a code is listed under a product iff some row updated a matrix entry of that product with that code; products are listed once, in first-match order |
| PriceUpdate.Diff | price_updater/cc_price_updater.php:681 | the codes kept are exactly the product's codes that the list did not contain |
| PriceUpdate.DisableCodesExact | price_updater/cc_price_updater.php:687-695 | a code is disabled iff it is an unlisted code whose matrix entry is enabled; no code is disabled twice; every code is either disabled or failed |
| PriceUpdate.DisableStep | price_updater/cc_price_updater.php:682-707 | one product's disable step keeps the updates, failures and misses and every other product's entries; it disables nothing without the option, and with the option outside a dry run the product ends up disabled or warned about |
| PriceUpdate.MainPriceStep | price_updater/cc_price_updater.php:708-724 | one product's main-price step changes only that product's warning and, when the option is on and the cheapest matrix prices changed the main price, appends exactly those prices; with the option on and a cheapest entry known it either updates or warns |
| PriceUpdate.Finish | price_updater/cc_price_updater.php:674-725 | post-processing the first `k` matched products appends at most `k` updates to those of the rows |
| PriceUpdate.NoDisableWithoutOption | price_updater/cc_price_updater.php:682 | without the disable option nothing is disabled |
| PriceUpdate.FinishKeepsRows | price_updater/cc_price_updater.php:674-724 | post-processing keeps the failures and misses and only appends main-price updates |
| PriceUpdate.FinishFilesMatched | price_updater/cc_price_updater.php:674-707 | warnings and disabled entries are filed only under products that had a matrix match |
| PriceUpdate.DryRunDisablesUnlisted | price_updater/cc_price_updater.php:682-684 | in a dry run with the disable option, every matched product reports all its unlisted codes as disabled |
| PriceUpdate.WarnsUnlisted | price_updater/cc_price_updater.php:705-707 | without the disable or main-price option, a matched product is warned about exactly when it has unlisted codes, and the warning lists them |
| PriceUpdate.DisableMatrixEntries | price_updater/cc_price_updater.php:687-695 | the loop's disabled and failed codes are those of the specification |
| PriceUpdate.ReportProduct | price_updater/cc_price_updater.php:679-724 | one product's disable and main-price step equals its specification |
| PriceUpdate.ReadBatch | price_updater/cc_price_updater.php:590-670 | processing one batch continues the row fold by that many rows |
| PriceUpdate.ReadRows | price_updater/cc_price_updater.php:589-671 | reading in batches of 2000 processes every row of the file, in order, as the row fold |
| PriceUpdate.UpdatePrices | price_updater/cc_price_updater.php:581-732 | an invalid file, unreadable header or missing labels is an error; otherwise the report is the row fold followed by the per-product post-processing |
| ImageForm.CheckDir | image_importer/cc_image_importer.php:52-69 | blank or "0" is required and any ".." is invalid; otherwise the input is accepted iff its normalised form is an existing directory or file under `PATH`, is "not found" exactly when it is neither, and the accepted value is that normalised form |
| ImageForm.NormaliseDir | image_importer/cc_image_importer.php:56-62 | "." and "/" mean `PATH`; anything else is stripped of slashes at both ends and gets a '/' unless it names a file |
| ImageForm.NormalisedDirShape | image_importer/cc_image_importer.php:59-61 | a normalised directory has no slash or backslash at either end except one final '/', which is added iff it does not name a file |
| ImageForm.CheckCodeSuffix | image_importer/cc_image_importer.php:70-75 | absent, "_" or "-" mean no suffix; otherwise accepted iff it has only letters, digits, '-' and '_', and is kept as given |
| ImageForm.SplitSingleFileAsWritten | image_importer/cc_image_importer.php:437-442 | as written the directory part is empty, "0", or ends in '/' |
| ImageForm.SplitSingleFile | image_importer/cc_image_importer.php:437-442 | corrected: the directory part is empty or ends in '/' |
| ImageForm.SplitSingleFileParts | image_importer/cc_image_importer.php:437-442 | corrected split: the file name holds no '/', the directory is empty or ends in '/', and for a path not starting with '/' the two join back to the path |
| ImageForm.SingleFileTargetIsInput | image_importer/cc_image_importer.php:437-442 | with the correction the file looked for is the one the form named |
| ImageForm.SplitAsWrittenLosesSlash | image_importer/cc_image_importer.php:440-442 | as written, "0/a.jpg" splits into "0" and "a.jpg", and "0a.jpg" is looked for |
| ImageForm.FormatName | image_importer/cc_image_importer.php:694-696 | every character outside letters, digits, '_', '.', '-' becomes '_', and the length is kept |
| ImageForm.FormatNameFixpoint | image_importer/cc_image_importer.php:694-696 | sanitising is idempotent and leaves a name alone iff it is already clean |
| ImageForm.ProductCode | image_importer/cc_image_importer.php:546 | the code is the file name before its last '.', or empty when there is no '.' |
| ImageRelations.FirstForeign | image_importer/cc_image_importer.php:559-569 | finds a match with another product id than the first iff there is one |
| ImageRelations.FindForeign | image_importer/cc_image_importer.php:559-569 | the loop returns that match |
| ImageRelations.ProductPart | image_importer/cc_image_importer.php:574-611 | a product relation is added iff the product is new in this run, has no existing relation, and the code matches with "add product" on or a matrix id is present with "add product matrix" on |
| ImageRelations.MatrixPart | image_importer/cc_image_importer.php:614-628 | a matrix image is set iff "update matrix" is on, the match has a matrix id, and it has no image yet or "force update" is on |
| ImageRelations.RelateBounds | image_importer/cc_image_importer.php:571-630 | the first `k` matches produce at most `2k` actions: a product relation and a matrix image each at most |
| ImageRelations.RelateSeen | image_importer/cc_image_importer.php:574-577 | the products seen are exactly the product ids of the matches processed |
| ImageRelations.ProductRelationExact | image_importer/cc_image_importer.php:574-611 | a product gets a relation iff its first match qualifies and it had no existing relation |
| ImageRelations.MatrixImageExact | image_importer/cc_image_importer.php:614-628 | a matrix entry gets the image iff some match of it passes the matrix rule |
| ImageRelations.ProductRelationsOnce | image_importer/cc_image_importer.php:574-611 | no product gets two relations, and none that already had one gets another |
| ImageRelations.KeepsMatrixImages | image_importer/cc_image_importer.php:615-616 | without "force update", a matrix entry that already has an image keeps it |
| ImageRelations.ExactCodeMatches | image_importer/cc_image_importer.php:582 | a file whose code equals the product code always matches |
| ImageRelations.ProductMatch | image_importer/cc_image_importer.php:581-592 | an equal code always matches, and without a custom regexp a matching code starts with the product code, ignoring ASCII case |
| ImageRelations.PatternMatch | image_importer/cc_image_importer.php:583-588 | a code the pattern matches starts with the product code, ignoring ASCII case |
| ImageRelations.PlainPatternIff | image_importer/cc_image_importer.php:584-588 | without a variant suffix, the pattern matches iff the code equals the product code ignoring ASCII case, allowing one final newline |
| ImageRelations.ZeroSuffixIsIgnored | image_importer/cc_image_importer.php:586 | for every product code and file code, a `code_suffix` of "0" matches exactly as an empty suffix does |
| ImageRelations.ZeroSuffixExample | image_importer/cc_image_importer.php:583-588 | so with variants on and suffix "0", "AB0-1" is not a variant of "AB" |
| ImageRelations.VariantExamples | image_importer/cc_image_importer.php:585-588 | with suffix "X", "ABCX-1", "abcx12" and "abcx-12" match product "ABC", while "ABCX" and "ABC-1" do not |
| ImageRelations.VariantShape | image_importer/cc_image_importer.php:585-588 | a variant match starts with the product code (ignoring case) and ends in a digit, or a digit and a newline |
| ImageRelations.BuildRelations | image_importer/cc_image_importer.php:571-630 | the loop's actions are those of the relation fold, and the count is their number |
| ImageRelations.AddImageRelationships | image_importer/cc_image_importer.php:539-633 | nothing is done without a relation option, two products matching without a regexp is a conflict, and otherwise the actions are the relation fold's, with `true` returned iff there is at least one |

## Left out

- The database layer is not part of this model: mysqli, prepared statements, `fetch_assoc_stmt`, transactions, `getPreparedStatements` and every database-error branch. Query results and `affected_rows` are inputs.
- The filesystem is not part of this model: `getDirectories`, `opendir`, `is_file`, `is_dir` and `getMimeType`. They become parameters or the `DirectoryTree.Entry` tree.
- The `addFiles` directory walk and `addFile` are not part of this model. They copy, rename and register files on disk. Only the single-file path split is modelled.
- `fgetcsv` tokenising, with its delimiter, length and quoting, is not part of this model. A file is given as a sequence of lines of cells. `CsvImporter::__destruct` (fclose) is left out.
- Floating point is not modelled: the `(float)` cast in `getAmount`, `round_up` and `sprintf`. Prices are whole cents, from a parameter `amount: string -> int`.
- PCRE is only partly modelled. Product codes and the suffix are interpolated into a pattern; the model takes them literally. The user's `regexp` option is an opaque predicate, and the SQL `REGEXP` is a given result.
- `urlencode`, `rawurlencode` and `htmlspecialchars` are parameters.
- Rendering is not modelled: HTML, JavaScript and message texts. Messages are datatype constructors.
- `array_search` and `in_array` use PHP's loose comparison; the model compares strictly. PHP's conversion of numeric string keys to integers is not modelled.
- `enable_updated` and `upc_overwrite` only change SQL text, so they are not modelled.
- The `is_int` check of an insert id in `addImageRelationships` is not modelled, because the id is always an integer or the dry-run 0.
- PriceUpdate.ParseRow: a missing product-code cell is read as the empty code and looked up as such; PHP binds NULL there, which matches no row.
- DirectoryTree.Item: states the closing `</li>` of a branch entry but not its opening `<li`; the shape of each entry is stated by `DirectoryTree.ItemShape`.
- PriceUpdate.Diff: states membership of the unlisted codes, not that `array_diff` keeps them in their original order.
- PriceUpdate.UpdatePrices: the order of keys in the `not_found` array is not modelled (it is a map).

## Findings

| source | as written | input that shows it | evidently intended | confidence | as-written member | corrected member |
|---|---|---|---|---|---|---|
| image_importer/cc_image_importer.php:437-442 | the directory part of a single-file path gets its '/' back only if `!empty($dir)`, which is false for "0" | `dir` = "0/a.jpg": the split gives "0" and "a.jpg", and `addFile` looks for `PATH . "0a.jpg"` | append '/' whenever the directory part is not the empty string, so the file looked for is `PATH . "0/a.jpg"` | not executed | ImageForm.SplitAsWrittenLosesSlash | ImageForm.SingleFileTargetIsInput |
