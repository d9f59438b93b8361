# Nonprofit partner dashboard: verified model of the data core

The dashboard (`app.py`) loads a table of partner organisations from a CSV
file, derives tag and category lists for every row, and lets the user narrow
the table with a search box and four selectboxes. It then shows a header
count, a map and a detail page. This project models the part of that program
that decides *what* is shown and proves properties of it:

- `TagSplit`: the tag splitter `_smart_split`. It cuts a field at every comma
  matched by `,(?![^(]*\))`, strips each piece and drops blank pieces.
- `Classifier`: the static `CATEGORY_MAP` and `_get_categories`. The
  triple loop that fills the `matched` set is a method, proved equal to a
  pure specification `Classify` over any table whose labels are not the
  fallbacks "Other" and "Unknown".
- `Records`: the row normalisation of `load_data`. Rows with a blank name
  are dropped. `SvcList`, `PopList` and `CatList` are derived. The status is
  stripped, and a blank status becomes "Unknown".
- `FilterEngine`: the filter block. `filtered` is reassigned once per
  active criterion. The method is proved equal to a one-shot selection of
  the rows that pass every criterion.
- `Views`: the derived views:
  - the selectbox option lists;
  - the active-filter pills and the header count line;
  - the Location, Organization Type, Website and Population Served lines of
    the detail page;
  - the map pin colour.
- `Strings`, `Sorting` and `Seqs` are support modules:
  - `Strings`: ASCII `strip`, `lower`, substring `in`, `startswith`, `join`.
  - `Sorting`: Python's string order and `sorted(set)`.
  - `Seqs`: an order-keeping filter, map and subsequence.

A CSV row is a record of strings (`Records.RawRow`). A missing cell is the
empty string, as `fillna("")` makes it. The file itself is a parameter: `None`
when the file does not exist, `Some(rows)` otherwise.

## Model

| member | source | states |
|---|---|---|
| Strings.Strip | app.py:122 | the result has no surrounding whitespace; it is a block of the input with only whitespace before and after it; it is empty exactly when the input is blank; a stripped string is left unchanged |
| Strings.Lower | app.py:132 | same length; ASCII upper-case letters are lowered and every other character is kept |
| Strings.Contains | app.py:132 | Python's `needle in hay` on strings: the needle occurs as a contiguous block (a definition) |
| Strings.StartsWith | app.py:636 | `str.startswith`: the text begins with the prefix (a definition) |
| Strings.Join | app.py:629 | `sep.join(parts)`: the parts with the separator between consecutive ones (a definition; Strings.JoinEnds states its ends) |
| Strings.JoinEnds | app.py:629 | a join of one or more parts begins with the first part and ends with the last |
| Strings.NatToString | app.py:373-375 | the count as an f-string shows it: non-empty decimal digits, no leading zero, denoting exactly the count |
| Sorting.Less | app.py:136 | Python's `<` on strings: code-point order, a proper prefix first (a definition; the next three rows state its order properties) |
| Sorting.LessIrreflexive | app.py:136 | no string is less than itself |
| Sorting.LessTransitive | app.py:136 | the order is transitive |
| Sorting.LessTotal | app.py:136 | any two strings are equal or ordered one way |
| Sorting.SortedDistinct | app.py:136 | strictly increasing in Python's string order; it holds exactly the elements of the input |
| Sorting.SortSet | app.py:136 | `sorted(matched)`: strictly increasing; holds exactly the elements of the set |
| Sorting.SortedUnique | app.py:136 | two strictly sorted lists with the same elements are equal, so the sorted form of a set is unique |
| TagSplit.CloseParenFirst | app.py:122 | the first '(' or ')' of the text is ')' (a definition; the next row ties it to the pattern) |
| TagSplit.IsSplitComma | app.py:122 | a position where `,(?![^(]*\))` matches: a comma whose first following parenthesis is not ')' (a definition) |
| TagSplit.CloseParenFirstIsLookahead | app.py:122 | the lookahead `(?![^(]*\))` fails at a position exactly when the first '(' or ')' after it is ')' |
| TagSplit.Pieces | app.py:122 | `re.split` with the pattern: never empty; pinned down by the rows PiecesFirstCut to PiecesJoin below |
| TagSplit.PiecesFirstCut | app.py:122 | `re.split` cuts first at the leftmost split comma |
| TagSplit.PiecesNoCut | app.py:122 | a text without split commas is a single piece |
| TagSplit.PiecesExact | app.py:122 | every piece is the text between two consecutive split commas, or the start or end of the text; it contains no split comma |
| TagSplit.PiecesJoin | app.py:122 | joining the pieces with "," gives back the input, so no character is lost |
| TagSplit.Clean | app.py:122 | every kept token is non-empty, stripped and the strip of some piece; the strip of every non-blank piece is kept |
| TagSplit.CleanSingle | app.py:122 | one piece gives its strip, or nothing when the strip is empty |
| TagSplit.CleanAppend | app.py:122 | tokens keep the order of their pieces: cleaning a concatenation concatenates the results |
| TagSplit.SmartSplit | app.py:120-122 | the empty string gives no tokens; every token is non-empty, stripped and the strip of some piece; the strip of every non-blank piece is a token; at most one token per piece |
| TagSplit.SmartSplitFirstCut | app.py:122 | the tokens are those before the first split comma followed by those of the rest of the text |
| TagSplit.BlankHasNoTokens | app.py:122 | a blank field yields no tokens |
| TagSplit.NoParensIsCommaSplit | app.py:122 | without parentheses the splitter equals a plain comma split, stripped, blanks dropped, in order, duplicates kept |
| TagSplit.ParenthesisedCommaExample | app.py:121-122 | "Health (Adult, Child), Legal" splits into "Health (Adult, Child)" and "Legal" |
| TagSplit.StrayCloseExample | app.py:122 | a stray ')' later in the text suppresses an earlier comma: "Arts, Aging)" stays one token |
| Classifier.KeywordMatches | app.py:132 | the keyword and the token, lowered, are substrings of each other in one direction or the other (a definition) |
| Classifier.CategoryMap | app.py:59-117 | the seven labels and their keywords, in the table's order (a constant) |
| Classifier.FallbacksAreNotCategories | app.py:59-117 | neither "Other" nor "Unknown" is a label of CATEGORY_MAP |
| Classifier.Matched | app.py:129-133 | a label is selected exactly when some token and some keyword of that entry are case-insensitive substrings of each other |
| Classifier.Classify | app.py:128-136 | never empty; strictly sorted; ["Unknown"] exactly when there are no tokens; ["Other"] exactly when there are tokens but none is selected; otherwise exactly the selected labels; every element is a table label or a fallback |
| Classifier.ClassifyTokens | app.py:128-136 | the three nested loops accumulating `matched`, then the fallback or `sorted(matched)`, compute Classify |
| Classifier.Categories | app.py:125-136 | the properties of Classify for CATEGORY_MAP and the tokens of the service-area string |
| Classifier.GetCategories | app.py:125-136 | the method splits the string and runs the loops over CATEGORY_MAP; its result equals Categories |
| Classifier.CategoriesAreLabels | app.py:136 | apart from the fallbacks, every returned label is a key of CATEGORY_MAP |
| Classifier.KeywordSelectsItsCategory | app.py:132-133 | a token equal to a keyword selects that keyword's category |
| Classifier.AfterSchoolListedTwice | app.py:60-75 | "After school/Out of school" is a keyword of both Education and Youth Development |
| Classifier.SingleTag | app.py:122 | a stripped non-empty string without commas is a single tag |
| Classifier.AfterSchoolIsOneTag | app.py:66 | that keyword on its own is one tag |
| Classifier.SharedKeywordSelectsBoth | app.py:60-75 | a field with that tag is classified under both Education and Youth Development |
| Classifier.BlankIsUnknown | app.py:134-135 | a blank service-area string is classified ["Unknown"] |
| Records.HasName | app.py:232 | the name is non-blank after stripping (a definition) |
| Records.NormaliseStatus | app.py:243 | the status is non-empty and stripped; blank becomes "Unknown", otherwise the stripped cell |
| Records.NormaliseStatusIdempotent | app.py:243 | normalising a normalised status changes nothing |
| Records.Normalise | app.py:238-243 | one kept row with its derived lists and normalised status, every other column unchanged (a definition; the next row states its properties) |
| Records.NormaliseWellFormed | app.py:232-243 | a row with a name normalises to a well-formed row: non-blank name, normalised status, stripped non-empty tags, and a non-empty sorted category list of labels or fallbacks |
| Records.Load | app.py:226-244 | a missing file gives the empty table; otherwise at most one row per source row |
| Records.LoadData | app.py:226-244 | the step-by-step filter and column derivation compute Load |
| Records.LoadWellFormed | app.py:232-243 | every loaded row is well formed |
| Records.LoadMembership | app.py:232-240 | a row is loaded exactly when it is the normalisation of a source row with a non-blank name |
| Records.LoadAppend | app.py:232-243 | rows are normalised independently and keep their file order: loading a concatenation concatenates the loads |
| Records.LoadKeepsNamedRows | app.py:232 | when every row has a name, every row is kept |
| FilterEngine.AdmitsSpelledOut | app.py:326-344 | a row passes exactly when the search is empty or hits name, service area or city, and each selectbox is "All" or matches the status or the list membership |
| FilterEngine.SearchHit | app.py:326-331 | the search text occurs, ignoring case, in the name, the service area or the city (a definition) |
| FilterEngine.Test | app.py:326-344 | the test each criterion puts to a row: search hit, status equality, or list membership (a definition) |
| FilterEngine.Select | app.py:324-344 | the result holds exactly the rows that pass every criterion and is an order-preserving subsequence of the table |
| FilterEngine.SelectAppend | app.py:324-346 | rows are judged one by one and keep their order and multiplicity: filtering a concatenation concatenates the results, so duplicate rows are counted |
| FilterEngine.SelectOne | app.py:324-344 | a single row is kept exactly when it passes every criterion |
| FilterEngine.Narrow | app.py:326-344 | one step keeps exactly the rows that pass that criterion (all of them when it is off) |
| FilterEngine.StepOk | app.py:326-344 | narrowing by one more criterion turns the rows passing the first n criteria into those passing the first n + 1 |
| FilterEngine.PipelineIsSelect | app.py:324-344 | the five narrowing steps in order compute Select |
| FilterEngine.ApplyFilters | app.py:324-344 | reassigning `filtered` once per active criterion yields Select |
| FilterEngine.NoneActiveSelectsAll | app.py:324-344 | with an empty search and every selectbox on "All" the whole table is shown |
| FilterEngine.Drop | app.py:334-344 | the dropped criterion is off; every other criterion keeps its value, its on/off state and its test |
| FilterEngine.DropWidens | app.py:326-344 | switching any one criterion off never removes a row: the old result is a subsequence of the new one |
| FilterEngine.SelectIdempotent | app.py:324-344 | filtering the filtered table again changes nothing |
| Views.Tags | app.py:289 | the comprehension over nested lists keeps exactly the elements that pass the condition |
| Views.Options | app.py:285 | "All" first, then the strictly sorted distinct values, holding exactly the values |
| Views.StatusOptions | app.py:283-286 | "All", then exactly the statuses that occur, sorted and distinct |
| Views.CategoryOptions | app.py:288-291 | "All", then exactly the categories of some row other than "Unknown" ("Other" may appear), sorted and distinct |
| Views.PopulationOptions | app.py:293-294 | "All", then exactly the non-empty population tags of some row, sorted and distinct |
| Views.ServiceOptions | app.py:296-297 | "All", then exactly the non-empty service tags of some row, sorted and distinct |
| Views.OnlyAdmits | app.py:334-344 | a row whose value matches a selectbox passes when that selectbox alone is set |
| Views.OptionsAreSelectable | app.py:283-297 | every option offered other than "All" selects at least one organisation |
| Views.PillText | app.py:351-360 | the pill of a criterion: the search in double quotes, otherwise the selected value (a definition) |
| Views.Pills | app.py:350-360 | one pill per active criterion in the order search, status, category, population, service (a definition; Views.PillsUnrolled states it) |
| Views.ActiveFilters | app.py:350-360 | appending one pill per active criterion yields Pills |
| Views.PillsUnrolled | app.py:350-360 | the pills are the quoted search, status, category, population and service, each only when active, in that order |
| Views.NoPillsIffNoneActive | app.py:350-360 | there are no pills exactly when no criterion is active, and then the whole table is shown |
| Views.SearchPillFirst | app.py:351-352 | an active search is the first pill, in double quotes |
| Views.HeaderText | app.py:372-376 | "Showing all N organizations" when the counts are equal, otherwise "Showing M of N organizations", with the counts in decimal |
| Views.HeaderShowsAllIff | app.py:372-376 | the line reads "Showing all" exactly when the filtered table is the whole table |
| Views.OrElse | app.py:632 | Python's `or` on strings: the string when non-empty, the fallback otherwise |
| Views.AddressParts | app.py:628-629 | the non-empty parts among address, city, state and zip, in that order, each once per occurrence |
| Views.FilterFour | app.py:628-629 | filtering four parts keeps the non-empty ones in their order |
| Views.AddressText | app.py:628-629 | "Not available" when every part is empty; otherwise the join starts with the first non-empty part and ends with the last |
| Views.OrgTypeText | app.py:632 | the organisation type when it is given, "Not specified" otherwise |
| Views.WebsiteOf | app.py:635-644 | "Not listed" exactly when the URL is empty; a URL that starts with "http" is linked unchanged; any other non-empty URL is linked with "https://" in front |
| Views.WebsiteIdempotent | app.py:636-639 | linking a produced link again leaves it unchanged |
| Views.PopulationText | app.py:648-649 | "Not specified" for no tags; otherwise the join starts with the first tag and ends with the last |
| Views.PinColor | app.py:430-431 | the palette colour of the first category when the palette has it; the "Unknown" colour for an empty list |
| Views.CatColors | app.py:46-56 | the palette, one colour per category label and fallback (a constant) |
| Views.EveryLabelHasColor | app.py:46-56 | every label the classifier can produce has a palette colour |
| Views.LoadedPinColor | app.py:427-431 | a loaded row's pin takes the palette colour of its alphabetically first category; the default is never needed |

## Left out

- FilterEngine.SearchHit: pandas' `str.contains` treats the search text as a regular expression. The model matches it as a literal, case-insensitive substring. Searches with regex metacharacters (or a malformed pattern, which raises in pandas) are therefore not modelled.
- Strings.Strip: covers only ASCII whitespace (characters 9-13 and 28-32). Python's `str.strip` also removes Unicode whitespace.
- Strings.Lower: lowers only ASCII letters. Python's `str.lower` folds all of Unicode.
- Views.AddressText: its contract states the empty case and the first and last part of the `", "` join, not every separator in between. The join itself is `Strings.Join`.
- Views.PopulationText: its contract states the empty case and the first and last tag of the `" · "` join, not every separator in between.
- Classifier.ClassifyTokens and Classifier.Classify: they take the category table as a parameter, so the loop proof is independent of the table's contents. CATEGORY_MAP enters through Classifier.GetCategories and Classifier.Categories.
- Records.Load: the file read (`os.path.exists`, `read_csv`, `fillna`) is a parameter. Latitude and longitude are kept as text because the `to_numeric` float coercion is not modelled.
- Records.RawRow: `read_csv` also reads its default missing-value markers ("NA", "N/A", "null", "None", "nan" and others) as missing, so `fillna("")` turns them into "" too. A row named "NA" is therefore dropped, and a status "N/A" becomes "Unknown". The model takes the cells after that conversion and does not model the marker list.
- Streamlit page layout, CSS, widgets and caching: presentation only.
- The Nominatim boundary fetch (`fetch_lawrence_boundary`): network I/O.
- Map, marker, popup, tooltip and SVG HTML, category badges (`cat_badge`), filter-pill HTML and the status colours (`STATUS_HEX`, `STATUS_FOLIUM`): rendering only.
- The directory table and the CSV export (column projection, renaming, `to_csv` quoting): presentation and file output.
- Which organisation the detail page shows (its selectbox) and the detail map: UI state and rendering. Only the text lines derived from the chosen row are modelled.
