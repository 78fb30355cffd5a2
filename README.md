# Menu-item create page: validation and persistence

This project models the server-side handler of the admin page that creates a
menu item (`CreateModel` in `Create.cshtml.cs`). The model covers:

- the page object with its bound `Item`, its `CategoryTitles` and its
  `ModelState` error list;
- the GET handler, which shows an empty item;
- the POST handler:
  - it drops binding errors on `Item.Id`;
  - it redisplays the page when any other binding error is left;
  - otherwise it runs all ten business rules in order, and none stops the
    others;
  - it parses the comma-separated image and size lists and the phone number
    from the raw form;
  - it calls the item service's create operation exactly once when no rule is
    broken, and redisplays the page otherwise.

The .NET library behaviour the handler relies on is modelled explicitly:

- `string.IsNullOrEmpty`, `string.IsNullOrWhiteSpace`, `char.IsWhiteSpace` and
  `string.Trim`;
- `string.Split(',', StringSplitOptions.RemoveEmptyEntries)` followed by
  `Select(s => s.Trim())`;
- `long.TryParse` with the default integer style.

Files and modules:

- `form_text.dfy` (`FormText`): null and blank tests, trimming, splitting.
  Proved: a split joins back to its input, a split with `RemoveEmptyEntries`
  keeps every non-separator character in order, and the split-and-trim has
  as many entries as there are runs of non-comma characters. A comma cuts the
  split-and-trim into that of the text before it followed by that of the text
  after it, and a comma-free piece gives one entry, the piece trimmed: so the
  entries are the trimmed non-empty pieces in the order they appear.
- `number_parsing.dfy` (`NumberParsing`): `long.TryParse` and the decimal text
  of a long. Proved:
  - a round trip through the decimal text;
  - the loss of a leading zero;
  - which texts are rejected.
- `create_page.dfy` (`CreatePage`):
  - `Item`, the raw form values and `ModelError`;
  - the message texts, copied byte for byte;
  - each rule as the handler tests it (`FieldErrors`), and each rule as a
    requirement on the submission (`Satisfies`);
  - the lemmas that connect the two.
- `create_model.dfy` (`CreateHandler`):
  - the `CreateModel` page class, and a `FirebaseService` class that stands
    for the remote item service;
  - the rule sequence as imperative methods that append to the error list and
    fill in the item.

The POST handler's business rules run on local copies of `ModelState` and
`Item`. These copies are written back after the last rule. This is equivalent
to the source, because nothing reads the fields in between.

The rules are split into three methods:

- `CheckBoundFields`: the seven tests on bound values, lines 52-79.
- `ReadListField`: one method for the image list and the size list. The two
  blocks are the same code with their own key and messages.
- `ReadSellerTell`: the phone number.

The statements inside each method are those of the handler, in the same
order.

## Model

| member | source | states |
|---|---|---|
| FormText.IsWhiteSpace | Create.cshtml.cs:52 | the characters `char.IsWhiteSpace` accepts (U+0009..U+000D, U+0020, U+0085, U+00A0, U+1680, U+2000..U+200A, U+2028, U+2029, U+202F, U+205F, U+3000); no ensures, it is the definition the blank tests and `Trim` use |
| FormText.IsNullOrEmpty | Create.cshtml.cs:76 | `string.IsNullOrEmpty`: absent or of length zero; no ensures, specified through `CreatePage.ListErrorsCases`, `CreatePage.SellerTellCases` and `CreatePage.FieldErrorsIff` |
| FormText.IsNullOrWhiteSpace | Create.cshtml.cs:52 | `string.IsNullOrWhiteSpace`: absent or made of white space only; no ensures, connected to `Trim` by `TrimEmptyIff` and to the rules by `CreatePage.FieldErrorsIff` |
| FormText.Trim | Create.cshtml.cs:82 | `string.Trim`; no ensures, specified by `TrimStartBy`, `TrimEndBy`, `TrimBySlice`, `TrimByRemovesWhite`, `TrimByEnds`, `TrimEmptyIff` and `TrimKeepsCharacters` |
| FormText.TrimStartBy | Create.cshtml.cs:82 | the characters `Trim` drops at the front are all white, and what is left is a suffix of the input that does not start with a white character |
| FormText.TrimEndBy | Create.cshtml.cs:82 | the characters `Trim` drops at the end are all white, and what is left is a prefix of the input that does not end with a white character |
| FormText.TrimBySlice | Create.cshtml.cs:82 | trimming yields the contiguous slice of the input that starts after the leading white characters |
| FormText.TrimByRemovesWhite | Create.cshtml.cs:82 | every character that trimming removes, at either end, is white |
| FormText.TrailingWhite | Create.cshtml.cs:82 | the characters removed from the end of a suffix are white in the whole string |
| FormText.TrimByEnds | Create.cshtml.cs:82 | a non-empty trimmed string starts and ends with a non-white character |
| FormText.TrimByUnchanged | Create.cshtml.cs:82 | a string that neither starts nor ends with white space is left unchanged by trimming |
| FormText.TrimEmptyIff | Create.cshtml.cs:82 | `Trim` yields "" exactly when the string is white space only, so a blank piece survives as "" |
| FormText.TrimKeepsCharacters | Create.cshtml.cs:82 | trimming introduces no character that was not in its input |
| FormText.Segments | Create.cshtml.cs:82 | `Split(',')` always yields at least one piece |
| FormText.SegmentsSepFree | Create.cshtml.cs:82 | no piece of the split contains the separator |
| FormText.JoinSegments | Create.cshtml.cs:82 | joining the split pieces with the separator gives back the input |
| FormText.FirstSegmentEmptyIff | Create.cshtml.cs:82 | the first piece is empty exactly when the input is empty or starts with the separator |
| FormText.RemoveEmpty | Create.cshtml.cs:82 | `RemoveEmptyEntries` keeps only non-empty pieces taken from the split |
| FormText.SplitRemoveEmpty | Create.cshtml.cs:82 | with `RemoveEmptyEntries`, every piece is non-empty and free of the separator |
| FormText.ConcatRemoveEmpty | Create.cshtml.cs:82 | dropping empty pieces loses no character |
| FormText.ConcatSegments | Create.cshtml.cs:82 | the split pieces, concatenated, are the input with its separators removed |
| FormText.SplitRemoveEmptyKeepsText | Create.cshtml.cs:82 | with `RemoveEmptyEntries`, the pieces hold every non-separator character of the input, in order |
| FormText.SegmentsRunCount | Create.cshtml.cs:82 | the number of pieces kept by `RemoveEmptyEntries` is the number of maximal runs of non-separator characters |
| FormText.RunCountZeroIff | Create.cshtml.cs:82-83 | there is no run exactly when the input consists of separators only |
| FormText.SplitTrim | Create.cshtml.cs:82 | split, drop empty, trim: as many entries as runs of non-comma characters, no entry holding a comma or surrounding white space; the entries themselves are fixed by `SplitTrimAppend` and `SplitTrimPiece` |
| FormText.TrimEachPreserves | Create.cshtml.cs:82 | trimming each piece keeps it free of the separator and leaves no surrounding white space |
| FormText.SplitTrimEmptyIff | Create.cshtml.cs:82-83 | the parsed list is empty exactly when the raw text is made of commas only |
| FormText.RemoveEmptyAppend | Create.cshtml.cs:82 | the empty-piece filter distributes over concatenation, so it keeps the pieces' order and drops only zero-length pieces |
| FormText.SegmentsWithoutSeparator | Create.cshtml.cs:82 | text without the separator splits into exactly one piece, itself |
| FormText.SegmentsAppend | Create.cshtml.cs:82 | splitting text around a separator gives the pieces before it followed by the pieces after it |
| FormText.MapEach | Create.cshtml.cs:82 | `Select(f)` keeps the number of pieces |
| FormText.MapEachAt | Create.cshtml.cs:82 | entry k of `Select(f)` is f applied to piece k |
| FormText.MapEachAppend | Create.cshtml.cs:82 | `Select(f)` over two lists one after the other is the two results one after the other |
| FormText.SplitTrimPiece | Create.cshtml.cs:82 | a non-empty comma-free piece parses to the one entry that is the piece trimmed |
| FormText.SplitTrimAppend | Create.cshtml.cs:82 | the parsed list of text around a comma is the parsed list of the text before it followed by that of the text after it, so entries keep their order |
| NumberParsing.TryParseInt64 | Create.cshtml.cs:106 | `long.TryParse`; no ensures, specified by `ParseFormatRoundTrip`, `LeadingZeroLost`, `EmptyTextRejected`, `NonDigitRejected`, `LoneSignRejected`, `OutOfRangeRejected` and `NegativeOutOfRangeRejected` |
| NumberParsing.ParseSigned | Create.cshtml.cs:106 | the text after trimming: an optional sign, then digits within the range of long; no ensures, specified by `ParseUnsigned` and the rejection lemmas |
| NumberParsing.DigitNotWhite | Create.cshtml.cs:106 | a digit is never white space to the number parser |
| NumberParsing.ParseUnsigned | Create.cshtml.cs:106 | unsigned digits parse to their value exactly when it is at most 2^63-1 |
| NumberParsing.DigitChar | Create.cshtml.cs:106 | the digit character of k is a digit whose value is k |
| NumberParsing.Decimal | Create.cshtml.cs:106 | the decimal text of a natural number is non-empty, all digits, without a leading zero |
| NumberParsing.DigitsValueDecimal | Create.cshtml.cs:106 | the value of the decimal text of n is n |
| NumberParsing.ParseFormatRoundTrip | Create.cshtml.cs:106-108 | every long parses back from its own decimal text |
| NumberParsing.DigitsValueLeadingZero | Create.cshtml.cs:106 | a leading zero does not change the value of a digit string |
| NumberParsing.LeadingZeroLost | Create.cshtml.cs:106-108 | "0" followed by digits parses to the same long as the digits alone, so the stored phone number loses the zero |
| NumberParsing.PhoneNumberExample | Create.cshtml.cs:106-108 | "0912345678" and "912345678" both parse to 912345678 |
| NumberParsing.EmptyTextRejected | Create.cshtml.cs:106 | the empty text does not parse |
| NumberParsing.NonDigitRejected | Create.cshtml.cs:106-113 | a text holding any non-digit after the optional sign (once trimmed) does not parse |
| NumberParsing.LoneSignRejected | Create.cshtml.cs:106-113 | a sign without digits does not parse |
| NumberParsing.OutOfRangeRejected | Create.cshtml.cs:106-113 | digits whose value exceeds 2^63-1 do not parse |
| NumberParsing.NegativeOutOfRangeRejected | Create.cshtml.cs:106-113 | a minus sign before digits whose value exceeds 2^63 does not parse |
| CreatePage.ParseList | Create.cshtml.cs:82 | the list parser of lines 82 and 94 (split on ',', drop empty, trim); no ensures, specified by `FormText.SplitTrim` and its lemmas |
| CreatePage.FieldErrors | Create.cshtml.cs:52-118 | the error each rule records, as the handler tests it; no ensures, specified by `FieldErrorsIff`, `ListErrorsCases`, `PicUrlCases`, `SizeCases`, `SellerTellCases` and `BoundaryCases` |
| CreatePage.ListErrors | Create.cshtml.cs:80-103 | the two list rules; no ensures, specified by `ListErrorsCases` |
| CreatePage.PhoneErrors | Create.cshtml.cs:104-118 | the phone rule; no ensures, specified by `SellerTellCases` and `FieldErrorsIff` |
| CreatePage.BusinessErrors | Create.cshtml.cs:52-118 | every rule's errors over all fields; no ensures, specified by `BusinessErrorsInOrder`, `ErrorsAccumulate` and `NoErrorsIffAllRulesHold` |
| CreatePage.Populate | Create.cshtml.cs:80-118 | the item after lines 82, 94 and 108 assign the parsed lists and number; no ensures, specified by `PicUrlCases`, `SizeCases`, `SellerTellCases` and `StoredItem` |
| CreatePage.CollectInOrder | Create.cshtml.cs:52-118 | collecting over all fields appends each field's errors in checking order |
| CreatePage.BusinessErrorsInOrder | Create.cshtml.cs:52-118 | the business errors are the errors of title, description, price, rating, category, seller name, seller picture, image list, size list and phone number, in that order |
| CreatePage.WithoutKey | Create.cshtml.cs:43 | `ModelState.Remove("Item.Id")` keeps exactly the errors recorded under other keys |
| CreatePage.KeyInjective | Create.cshtml.cs:52-118 | distinct fields record errors under distinct keys |
| CreatePage.ListErrorsCases | Create.cshtml.cs:80-103 | a list field records "required" when absent or empty, "at least one" when it holds commas only, and nothing exactly when it has a non-comma character |
| CreatePage.FieldErrorsIff | Create.cshtml.cs:52-118 | each rule records at most one error, under its own key, and records one exactly when the field breaks its rule |
| CreatePage.CountKeyAppend | Create.cshtml.cs:52-118 | the errors counted under a key in two lists together are the sum of the two counts |
| CreatePage.CountKeyOne | Create.cshtml.cs:52-118 | one field's check adds one error under its own key if it fails, and none under any other key |
| CreatePage.CountKeyOver | Create.cshtml.cs:52-118 | over distinct fields, a field carries one error if it is checked and fails, and none otherwise |
| CreatePage.ErrorsOverKeys | Create.cshtml.cs:52-118 | every recorded error is under the key of one of the checked fields |
| CreatePage.EveryFieldChecked | Create.cshtml.cs:52-118 | every field with a rule is among the checked fields |
| CreatePage.ErrorsAccumulate | Create.cshtml.cs:52-118 | errors accumulate: every broken rule leaves exactly one error, every satisfied rule none, and no other key is used |
| CreatePage.ErrorsOverEmptyIff | Create.cshtml.cs:52-118 | checking some fields records nothing exactly when each of them meets its rule |
| CreatePage.NoErrorsIffAllRulesHold | Create.cshtml.cs:52-120 | the submission records no business error exactly when every field meets its rule |
| CreatePage.PicUrlCases | Create.cshtml.cs:80-91 | the image list has three exclusive outcomes: "required" error, "at least one" error with an empty list, or no error with the parsed list of one entry per run |
| CreatePage.SizeCases | Create.cshtml.cs:92-103 | the size list has the same three exclusive outcomes with its own messages |
| CreatePage.SellerTellCases | Create.cshtml.cs:104-118 | the phone number is required when missing, stored when it parses, and reported invalid with the bound value kept otherwise |
| CreatePage.SellerTellLosesLeadingZero | Create.cshtml.cs:104-109 | "0912345678" is accepted and stored as 912345678 |
| CreatePage.BoundaryCases | Create.cshtml.cs:52-79 | a blank title fails, a blank seller picture passes, ratings 0 and 5 pass, and price 0 fails |
| CreatePage.StoredItem | Create.cshtml.cs:52-128 | an item that passes every rule has the required texts, a positive price, a rating in [0, 5], the image and size lists parsed from the raw text (non-empty, one entry per comma-separated run), the parsed phone number and otherwise its bound values |
| CreatePage.StoredListEntries | Create.cshtml.cs:80-103 | in an item that passes every rule, no entry of the image or size list holds a comma or surrounding white space |
| CreatePage.IdErrorsIgnored | Create.cshtml.cs:43-45 | binding errors under `Item.Id` alone never stop validation |
| CreateHandler.FirebaseService.GetCategoryTitlesAsync | Create.cshtml.cs:35 | fetching the category titles returns the service's titles |
| CreateHandler.FirebaseService.CreateItemAsync | Create.cshtml.cs:128 | creating appends exactly the given item to the created items |
| CreateHandler.CheckBoundFields | Create.cshtml.cs:52-79 | the seven checks on bound values append, in order, exactly the errors the title, description, price, rating, category, seller-name and seller-picture rules record |
| CreateHandler.ReadListField | Create.cshtml.cs:80-103 | a list field appends its rule's error and sets the list to the split-and-trim of the raw text when it is present |
| CreateHandler.ReadSellerTell | Create.cshtml.cs:104-118 | the phone field appends its rule's error and sets the number to the parsed long when it parses |
| CreateHandler.ParseFormFields | Create.cshtml.cs:80-118 | the three raw-form rules append their errors in order and fill in the image list, size list and phone number |
| CreateHandler.CreateModel.constructor | Create.cshtml.cs:16-25 | the page after binding holds the bound item and the binding errors |
| CreateHandler.CreateModel.OnGetAsync | Create.cshtml.cs:27-37 | GET shows an empty item with empty image and size lists, and the current category titles |
| CreateHandler.CreateModel.OnPostAsync | Create.cshtml.cs:43-130 | other binding errors redisplay the page with nothing created; otherwise ModelState holds exactly the business errors, the item is populated, and the item is created once, with a redirect, exactly when no error was recorded |

## Left out

- Logging (lines 29, 36, 41, 47, 122, 127, 129): it writes diagnostics and changes nothing else.
- Asynchrony and remote faults: `FirebaseService` is a local class. Its category titles are a field, and its creations are appended to a list. Network failures and exceptions are not modelled.
- ASP.NET model binding is not modelled. The page's constructor receives the bound item and the binding errors.
- `ModelState` keys are compared exactly. ASP.NET compares them without regard to case, and stores errors per key rather than in one list. The handler only adds, removes and tests for emptiness, so the outcome is the same.
- A raw form value with several values (`StringValues` joined by commas) is modelled as one string.
- Floating point: price and rating are real numbers, so NaN and rounding are not modelled. `ItemModel` is not part of this model.
- `NumberParsing.TryParseInt64`: culture-specific sign symbols and trailing NUL characters that `long.TryParse` accepts are not modelled. Only leading and trailing white space (U+0009..U+000D, space), one `+` or `-`, and ASCII digits are modelled.
- The category identifier is only required to be non-blank (lines 68-71). The handler never checks it against the category titles, so the model does not either.
- A whitespace-only list entry such as the middle of `"a, ,b"` survives as `""` (split, drop empty, then trim), so `StoredListEntries` guarantees comma-free, trimmed entries, not non-empty ones.
