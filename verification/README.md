# NeMo text processing: grammar conventions

This project models the string-level meaning of four parts of NeMo's
weighted-finite-state text normalization and inverse text normalization
grammars, and proves properties of that model.

- **Shared grammar utilities**: the English plural rewrite and its inverse,
  `TO_LOWER`/`TO_UPPER`, `convert_space`, the `add_tokens`/`delete_tokens`
  framing of token records, the `preserve_order`/`field_order` marker deleter,
  `capitalized_input_graph`, `string_map_cased`, and the construction of a
  grammar unit (`GraphFst`) with its archive path.
- **Spanish date verbalizer** (`DateFst`): it turns the record
  `date { day: "D" month: "M" [markers] }` into `D de M'` and
  `date { year: "Y" [markers] }` into `Y`.
- **Hindi sentence verbalizer** (`VerbalizeFinalFst`): it reads one or more
  `tokens { T }` blocks, verbalizes each block's content and joins the results
  with single spaces.
- **Hindi sentence classifier** (`ClassifyFst`): the cache-archive name and the
  restore-or-rebuild rule; the weighted union of the sub-classifiers; and the
  sentence grammar that frames tokens and punctuation and handles whitespace.

Each grammar is a relation. It maps one input string to the set of all its
outputs, and the empty set means the input is rejected (`Tokens.Grammar`).
Weighted grammars give each output a cost. Costs are the source's float
weights times 100, so they are integers: whitelist 101, the semiotic classes
110, punctuation 210, word fallback 10000. Tables are map parameters: the
suppletive plurals, the month tables and the whitelist labels. So are
sub-grammars that are not part of this model, such as `VerbalizeFst`,
`WordFst`, `CardinalFst` and the other classifiers. The file system enters
only as an existence test passed in as a parameter.

The Hindi classifier's sentence grammar is modelled over an analysis of the
input rather than over raw characters. The input is a sequence of items:
- `Gap`, a run of whitespace; one run may be analysed as several consecutive
  `Gap` items, since the punctuation closure's `closure(NEMO_WHITE_SPACE, 1)`
  units can read it piece by piece;
- `Punct(out)`, a punctuation span together with the output its grammar chose;
- `Token(out, cls)`, a span together with the class that read it and that
  class's output.

The model is the set of outputs the grammar's structure produces for that
sequence, with their costs. It shows two things about the classifier:
- A whitespace run between two tokens has at least two readings of equal cost.
  One is a single space. Another is three spaces: the run read as the
  punctuation closure's whitespace group, with a space inserted on each side
  (`HiSentence.TokensAcrossWhiteSpace`). A run of two or more characters has
  further readings at the same cost, for example as two whitespace units with
  four spaces in all, or with its first character taken by the token's suffix
  closure. Which reading comes out is left to the tie-breaking of the
  shortest-path search.
- Input made only of punctuation and whitespace is accepted through the final
  `graph |= punct` alternative, and its output begins with a space.

One might expect inverting the plural rewrite on "boxes" to give only "box".
The inverse relation gives both "box" and "boxe", since "boxe" takes the
default "+s" (`Plurals.BoxExample`).

Modules:
- `Wrappers`: `Option` and `Result`.
- `Text`: character classes, casing and whitespace stripping.
- `Plurals`: the plural rewrite and its inverse.
- `Tokens`: record framing, space protection and the order-marker deleter.
- `Casing`: `capitalized_input_graph` and `string_map_cased`.
- `GraphUnit`: `GraphFst` construction.
- `EsDate`: the Spanish date verbalizer.
- `HiVerbalizeFinal`: the Hindi sentence verbalizer.
- `HiCache`: the Hindi cache rule.
- `HiClassify`: the weighted union of the Hindi sub-classifiers.
- `HiSentence`: the Hindi sentence grammar.

## Model

| member | source | states |
|---|---|---|
| `Text.ToLower` | nemo_text_processing/text_normalization/ja/graph_utils.py:108 | Defined exactly on the ASCII capitals; the result is the small letter 32 code points above. |
| `Text.ToUpper` | nemo_text_processing/text_normalization/ja/graph_utils.py:109 | Defined exactly on the ASCII small letters; the result is the capital 32 code points below. |
| `Text.ToUpperInvertsToLower` | nemo_text_processing/text_normalization/ja/graph_utils.py:108-109 | `TO_UPPER` is exactly the inverse relation of `TO_LOWER`: `ToLower(c) == Some(d)` iff `ToUpper(d) == Some(c)`. |
| `Text.SkipWhiteSpace` | nemo_text_processing/text_normalization/ja/graph_utils.py:84 | The longest whitespace prefix `delete_space` can consume: all whitespace, followed by a non-whitespace character or the end. |
| `Text.StripBounds` | nemo_text_processing/text_normalization/ja/graph_utils.py:84 | Leading and trailing whitespace bounds: whitespace outside them, and a core with no whitespace at either end. |
| `Text.StripUnique` | nemo_text_processing/text_normalization/ja/graph_utils.py:84 | A core whose end characters are not whitespace can be surrounded by whitespace in only one way. |
| `Plurals.Plural` | nemo_text_processing/text_normalization/ja/graph_utils.py:95-104 | Defines `graph_plural`: the suppletive table first, then the "ies", "es" and "s" rules in priority order; its meaning is stated by `Plurals.ExactlyOneRuleFires` and the `PluralOf…` lemmas. |
| `Plurals.FirstMatch` | nemo_text_processing/text_normalization/ja/graph_utils.py:102-104 | The first rule in priority order that accepts the word; every earlier rule rejects it. |
| `Plurals.ExactlyOneRuleFires` | nemo_text_processing/text_normalization/ja/graph_utils.py:102-104 | Some rule always fires, and the plural is the output of the first accepting rule; the rules after it play no part. |
| `Plurals.SuppletiveSuppressesRules` | nemo_text_processing/text_normalization/ja/graph_utils.py:102-104 | A word in the exception table takes the table's plural whatever its ending, and the table is the rule that fires. |
| `Plurals.PluralOfConsonantY` | nemo_text_processing/text_normalization/ja/graph_utils.py:95-98 | A word ending in a consonant (with `y` counted as one) followed by "y" becomes stem + "ies". |
| `Plurals.PluralOfVowelY` | nemo_text_processing/text_normalization/ja/graph_utils.py:98-100 | A word ending in a non-consonant followed by "y" falls through to the default and gains "s". |
| `Plurals.PluralOfSibilant` | nemo_text_processing/text_normalization/ja/graph_utils.py:99 | A word ending in "s", "sh", "ch", "x" or "z" gains "es". |
| `Plurals.RegularPluralExtendsSingular` | nemo_text_processing/text_normalization/ja/graph_utils.py:99-100 | Outside the table and the "ies" rule, the plural is the word followed by "es" or "s". |
| `Plurals.Singulars` | nemo_text_processing/text_normalization/ja/graph_utils.py:107 | Defines `PLURAL_TO_SINGULAR`, the inverse relation of the plural rewrite; `Plurals.SingularsInvertPlural` states that it is exactly that inverse. |
| `Plurals.SingularsInvertPlural` | nemo_text_processing/text_normalization/ja/graph_utils.py:106-107 | `w` is a singular of `p` exactly when the plural of `w` is `p`. |
| `Plurals.PluralOfSingularOfPlural` | nemo_text_processing/text_normalization/ja/graph_utils.py:106-107 | Every word is among the singulars of its plural, and every such singular has the same plural. |
| `Plurals.BoxExample` | nemo_text_processing/text_normalization/ja/graph_utils.py:99-107 | "box" becomes "boxes"; the singulars of "boxes" are exactly "box" and "boxe". |
| `Tokens.AddTokens` | nemo_text_processing/text_normalization/ja/graph_utils.py:276 | Defines `add_tokens`: `name { ` before the value and ` }` after it; `Tokens.DeleteTokensOfAddTokens` and `Tokens.FramingRoundTrip` state what undoes it. |
| `Tokens.SpaceToNbsp` | nemo_text_processing/text_normalization/ja/graph_utils.py:190 | Every space becomes U+00A0; every other character and the length are kept. |
| `Tokens.NbspToSpace` | nemo_text_processing/text_normalization/ja/graph_utils.py:297 | Every U+00A0 becomes a space; every other character and the length are kept. |
| `Tokens.ConvertSpace` | nemo_text_processing/text_normalization/ja/graph_utils.py:190 | Defines `convert_space` on a grammar: each output with its spaces protected as U+00A0; `Tokens.ConvertedFramingRoundTrip` states that `delete_tokens` gives the spaces back. |
| `Tokens.DeleteTokens` | nemo_text_processing/text_normalization/ja/graph_utils.py:288-297 | Defines `delete_tokens`: the name, whitespace, `{`, whitespace, the inner grammar, whitespace and `}` deleted, then every U+00A0 turned into a space; `Tokens.UnframeShape` and `Tokens.UnframeTrimmed` state its meaning. |
| `Tokens.NbspToSpaceUndoesSpaceToNbsp` | nemo_text_processing/text_normalization/ja/graph_utils.py:190 | For a value without U+00A0, the rewrite at the end of `delete_tokens` undoes `convert_space`, and the protected value has no space left. |
| `Tokens.UnframeShape` | nemo_text_processing/text_normalization/ja/graph_utils.py:288-296 | `delete_tokens` accepts only inputs that start with the name and end with a closing brace. |
| `Tokens.UnframeTrimmed` | nemo_text_processing/text_normalization/ja/graph_utils.py:288-296 | For an inner grammar blind to surrounding whitespace, `name w1 { w2 x w3 }` with any whitespace runs means exactly the inner grammar on `x`. |
| `Tokens.DeleteTokensOfAddTokens` | nemo_text_processing/text_normalization/ja/graph_utils.py:276-297 | `delete_tokens` of `add_tokens(x)` gives the inner outputs on `x` with every U+00A0 turned into a space. |
| `Tokens.VerbatimIsBlindToSurroundingSpace` | nemo_text_processing/text_normalization/ja/graph_utils.py:84 | The copy grammar for trimmed values rejects leading whitespace and absorbs trailing whitespace. |
| `Tokens.FramingRoundTrip` | nemo_text_processing/text_normalization/ja/graph_utils.py:276-297 | `delete_tokens(add_tokens(x))` is exactly `{x}` for a trimmed value without U+00A0. |
| `Tokens.ConvertedFramingRoundTrip` | nemo_text_processing/text_normalization/ja/graph_utils.py:190-297 | A value whose spaces `convert_space` protected comes out of `delete_tokens` with its ordinary spaces back, and nothing else. |
| `Tokens.ParseMarkersCons` | nemo_text_processing/text_normalization/ja/graph_utils.py:88-91 | Reading one valid marker in front of more text reads that marker, then the rest. |
| `Tokens.ParseMarkersText` | nemo_text_processing/text_normalization/ja/graph_utils.py:88-91 | Reading the text of a run of valid markers gives those markers back. |
| `Tokens.MarkersTextOfParse` | nemo_text_processing/text_normalization/ja/graph_utils.py:88-91 | Every run of markers read is valid, and its text is exactly the text it was read from. |
| `Tokens.DeletePreserveOrderAsWritten` | nemo_text_processing/text_normalization/ja/graph_utils.py:88-91 | Defines `delete_preserve_order` as written, copying each `field_order` character; `Tokens.AsWrittenLeaksFieldChars` states what it outputs. |
| `Tokens.DeletePreserveOrder` | nemo_text_processing/text_normalization/ja/graph_utils.py:88-91 | The corrected deleter produces nothing at all when it accepts. |
| `Tokens.AsWrittenLeaksFieldChars` | nemo_text_processing/text_normalization/ja/graph_utils.py:88-91 | The deleter as written accepts the same inputs as the corrected one, but outputs the field characters of the markers it read. |
| `Tokens.FieldOrderLeakExample` | nemo_text_processing/text_normalization/ja/graph_utils.py:90 | On ` field_order: "d"` the deleter as written outputs "d"; the corrected one outputs "". |
| `Tokens.DeletePreserveOrderDeletesMarkers` | nemo_text_processing/text_normalization/ja/graph_utils.py:88-91 | The corrected deleter removes every run of valid markers completely. |
| `Casing.AddWeight` | nemo_text_processing/text_normalization/ja/graph_utils.py:130-134 | With no weight given, the paths are unchanged; with weight `d`, a path is in the result exactly when it is an input path with `d` added to its cost. |
| `Casing.AddWeightKeepsOutputs` | nemo_text_processing/text_normalization/ja/graph_utils.py:130-134 | Adding a weight changes costs only, never which outputs exist. |
| `Casing.AddWeightUndone` | nemo_text_processing/text_normalization/ja/graph_utils.py:130-134 | Adding a weight and then its negation gives back exactly the original paths. |
| `Casing.LowerFirst` | nemo_text_processing/text_normalization/ja/graph_utils.py:128 | `TO_LOWER + NEMO_SIGMA` accepts exactly the inputs that start with a capital; its first character is `TO_LOWER` of that capital, a small letter, and the rest is kept. |
| `Casing.CapitalizedInputGraph` | nemo_text_processing/text_normalization/ja/graph_utils.py:117-137 | Defines `capitalized_input_graph` on one input: the weighted base paths plus the weighted base paths of the input with its first letter lowered; `Casing.CapitalizedOutputsExactly` states its outputs. |
| `Casing.CapitalizedKeepsBaseOutputs` | nemo_text_processing/text_normalization/ja/graph_utils.py:136 | Every output of the base grammar is still an output, whatever the two weights are. |
| `Casing.CapitalizedAcceptsUpperFirst` | nemo_text_processing/text_normalization/ja/graph_utils.py:128-136 | If the base reads `c + rest` with `c` small, the result reads the capital of `c` + rest with the same outputs. |
| `Casing.CapitalizedOutputsExactly` | nemo_text_processing/text_normalization/ja/graph_utils.py:128-137 | The outputs are exactly those of the input and, for an input with a capital first letter, those of its lowered form; the weights do not change them. |
| `Casing.OutputsOfUnion` | nemo_text_processing/text_normalization/ja/graph_utils.py:136 | The outputs of a union are the union of the outputs. |
| `Casing.UpperAll` | nemo_text_processing/text_normalization/ja/graph_utils.py:205 | `str.upper` on ASCII: same length, each character upper-cased. |
| `Casing.LowerAll` | nemo_text_processing/text_normalization/ja/graph_utils.py:202 | `str.lower` on ASCII: same length, each character lower-cased. |
| `Casing.Capitalize` | nemo_text_processing/text_normalization/ja/graph_utils.py:202 | `str.capitalize`: first character upper-cased, the rest lower-cased. |
| `Casing.CapitalizeFirst` | nemo_text_processing/text_normalization/ja/graph_utils.py:199 | `written[0].upper() + written[1:]` is defined exactly on non-empty text and changes only the first character. |
| `Casing.ReplaceAll` | nemo_text_processing/text_normalization/ja/graph_utils.py:205 | Defines `str.replace`, leftmost non-overlapping occurrences first; `Casing.ReplaceAllWithoutPattern` and `Casing.ReplaceAllAtLeftmost` state its meaning. |
| `Casing.ReplaceAllWithoutPattern` | nemo_text_processing/text_normalization/ja/graph_utils.py:205 | `str.replace` leaves a text without the pattern unchanged. |
| `Casing.ReplaceAllAtLeftmost` | nemo_text_processing/text_normalization/ja/graph_utils.py:205 | At the leftmost occurrence of the pattern, the text before it is kept, the occurrence becomes the replacement and replacing goes on after it. |
| `Casing.UpperAndExample` | nemo_text_processing/text_normalization/ja/graph_utils.py:205 | "b and w" upper-cased is "B AND W", and the replacement turns it into "B and W". |
| `Casing.RemoveSpaces` | nemo_text_processing/text_normalization/ja/graph_utils.py:210 | A character is in the result exactly when it is in the input and is not a space; the result is shorter by exactly the number of spaces. |
| `Casing.RemoveSpacesAppend` | nemo_text_processing/text_normalization/ja/graph_utils.py:210 | Removing spaces distributes over concatenation, drops a lone space and keeps any other lone character, which fixes the result and its order. |
| `Casing.NoSpaceVariantCountsSpaces` | nemo_text_processing/text_normalization/ja/graph_utils.py:212 | The length test holds exactly when there is one space fewer than other characters. |
| `Casing.SpelledHasNoSpaceVariant` | nemo_text_processing/text_normalization/ja/graph_utils.py:210-216 | Letters separated by single spaces pass the test, and their no-space form is the letters. |
| `Casing.TrailingSpaceHasNoSpaceVariant` | nemo_text_processing/text_normalization/ja/graph_utils.py:212 | The test counts characters only: "ab " passes without being spelled out. |
| `Casing.AdditionalLabels` | nemo_text_processing/text_normalization/ja/graph_utils.py:198-224 | Defines the rows added for one label in the cased mode; `Casing.AdditionalEntries` states their entries. |
| `Casing.AllAdditionalLabels` | nemo_text_processing/text_normalization/ja/graph_utils.py:197-224 | The additional rows exist exactly when every written form is non-empty, and there are two to four per label. |
| `Casing.Invert` | nemo_text_processing/text_normalization/ja/graph_utils.py:227 | One entry per label, in order, mapping spoken to written and keeping the weight. |
| `Casing.StringMapCased` | nemo_text_processing/text_normalization/ja/graph_utils.py:193-228 | Defines `string_map_cased` on a label list; `Casing.StringMapCasedShape` and `Casing.StringMapCasedEntries` state its meaning. |
| `Casing.StringMapCasedShape` | nemo_text_processing/text_normalization/ja/graph_utils.py:193-228 | Outside the cased mode the labels are only inverted. In the cased mode the map fails exactly when a written form is empty; otherwise the inverted originals come first and the result has three to five entries per label. |
| `Casing.VariantsKeepWrittenForm` | nemo_text_processing/text_normalization/ja/graph_utils.py:199-224 | Every added row maps to the written form or to it with a capital first letter, and any weight it carries is the label's own. |
| `Casing.AddedEntry` | nemo_text_processing/text_normalization/ja/graph_utils.py:198-224 | Defines the entries one label adds: (`spoken.capitalize()`, Wc) and (`spoken.upper()` with " AND " lowered, Wc) without weight, and, exactly when the no-space test passes, (spoken without spaces, written) and its upper case with Wc, both with the label's weight. |
| `Casing.AdditionalEntries` | nemo_text_processing/text_normalization/ja/graph_utils.py:198-224 | One label adds two rows, or four when the no-space test passes, and the inverted rows are exactly its added entries. |
| `Casing.AllAdditionalEntries` | nemo_text_processing/text_normalization/ja/graph_utils.py:196-225 | With every written form non-empty, the rows added for all labels hold exactly the entries some label adds, in both directions. |
| `Casing.StringMapCasedEntries` | nemo_text_processing/text_normalization/ja/graph_utils.py:193-228 | In the cased mode the map is the inverted labels followed by rows that hold exactly the entries some label adds, in both directions. |
| `Casing.SpelledLabelExample` | nemo_text_processing/text_normalization/ja/graph_utils.py:199-224 | The label "BMW" / "b m w" gains "B m w", "B M W", "bmw" and "BMW", in that order. |
| `GraphUnit.NewUnit` | nemo_text_processing/text_normalization/ja/graph_utils.py:242-250 | The unit keeps its name, kind and flag, and holds a transducer exactly when the archive exists, namely the one loaded from its kind-and-name path. |
| `GraphUnit.SetFst` | nemo_text_processing/text_normalization/ja/graph_utils.py:262-264 | The setter replaces the transducer and leaves everything else alone. |
| `GraphUnit.FarPathKeyedByKindAndName` | nemo_text_processing/text_normalization/ja/graph_utils.py:248 | For kinds without a slash, the joined path string, before `Path()` normalises it, determines kind and name. |
| `EsDate.ParseDayMonth` | nemo_text_processing/inverse_text_normalization/es/verbalizers/date.py:47-66 | Defines the input side of `day + delete_extra_space + month` and the marker closure; `EsDate.ParseDayMonthText` states what it reads back. |
| `EsDate.ParseYear` | nemo_text_processing/inverse_text_normalization/es/verbalizers/date.py:39-45 | Defines the input side of the year form and the marker closure; `EsDate.ParseYearText` states what it reads back. |
| `EsDate.DateBodyWith` | nemo_text_processing/inverse_text_normalization/es/verbalizers/date.py:56-69 | Defines the body `graph_dm | year` followed by the markers, as written or corrected; `EsDate.DayMonthRoundTrip` and `EsDate.YearRoundTrip` state its outputs. |
| `EsDate.DateVerbalize` | nemo_text_processing/inverse_text_normalization/es/verbalizers/date.py:56-72 | Defines the corrected verbalizer: `delete_tokens` around the body with the `field_order` characters deleted; `EsDate.VerbalizeDayMonthRecord` states its output. |
| `EsDate.DateVerbalizeAsWritten` | nemo_text_processing/inverse_text_normalization/es/verbalizers/date.py:56-72 | Defines the verbalizer as written: `delete_tokens` around the body that copies the `field_order` characters; `EsDate.VerbalizeDayMonthRecordAsWritten` states its output. |
| `EsDate.ParseDayMonthText` | nemo_text_processing/inverse_text_normalization/es/verbalizers/date.py:47-66 | The day-month record reads back as its day, its month and its markers' field characters, and does not read as a year. |
| `EsDate.ParseYearText` | nemo_text_processing/inverse_text_normalization/es/verbalizers/date.py:39-45 | The year record reads back as its year and its markers' field characters, and does not read as a day-month record. |
| `EsDate.OrderTailOfMarkers` | nemo_text_processing/inverse_text_normalization/es/verbalizers/date.py:58-66 | The marker closure reads the text of any run of valid markers, and as written copies exactly their field characters. |
| `EsDate.DayMonthRoundTrip` | nemo_text_processing/inverse_text_normalization/es/verbalizers/date.py:56-69 | A day-month record gives exactly `D de M'` for each table rendering `M'` of its month, whatever markers follow; as written the field characters trail that output. |
| `EsDate.YearRoundTrip` | nemo_text_processing/inverse_text_normalization/es/verbalizers/date.py:39-69 | A year record gives exactly its value; as written the field characters trail it. |
| `EsDate.OnlyDayFirstOrYear` | nemo_text_processing/inverse_text_normalization/es/verbalizers/date.py:56-68 | A body starting with neither `day:` nor `year:`, a month-first body for one, is rejected. |
| `EsDate.EmptyDayRejected` | nemo_text_processing/inverse_text_normalization/es/verbalizers/date.py:47-53 | An empty day value is rejected. |
| `EsDate.DayMonthNeedSeparator` | nemo_text_processing/inverse_text_normalization/es/verbalizers/date.py:56 | A day field not followed by whitespace is rejected. |
| `EsDate.UnknownMonthRejected` | nemo_text_processing/inverse_text_normalization/es/verbalizers/date.py:36-46 | A month in neither table is rejected. |
| `EsDate.DayMonthOutputsLeak` | nemo_text_processing/inverse_text_normalization/es/verbalizers/date.py:58-66 | As written and corrected, a read record has outputs in the same cases, and they agree when no field character was read. |
| `EsDate.CorrectionKeepsAcceptance` | nemo_text_processing/inverse_text_normalization/es/verbalizers/date.py:58-69 | The body as written and corrected rejects the same inputs, and they agree wherever no field character is read. |
| `EsDate.DateBodyBlindToSurroundingSpace` | nemo_text_processing/inverse_text_normalization/es/verbalizers/date.py:69-71 | The body rejects leading whitespace and absorbs trailing whitespace, as the `date { }` framing needs. |
| `EsDate.DateBodyAsWrittenBlindToSurroundingSpace` | nemo_text_processing/inverse_text_normalization/es/verbalizers/date.py:69-71 | The body as written also rejects leading whitespace and absorbs trailing whitespace. |
| `EsDate.DateBodyAppendWhiteSpace` | nemo_text_processing/inverse_text_normalization/es/verbalizers/date.py:69 | Trailing whitespace after a body changes neither reading, so neither output set. |
| `EsDate.VerbalizeBody` | nemo_text_processing/inverse_text_normalization/es/verbalizers/date.py:71-72 | A framed trimmed body is verbalized as exactly the corrected body's outputs with every U+00A0 turned into a space. |
| `EsDate.VerbalizeBodyAsWritten` | nemo_text_processing/inverse_text_normalization/es/verbalizers/date.py:71-72 | The same for the body as written. |
| `EsDate.VerbalizeDayMonthRecord` | nemo_text_processing/inverse_text_normalization/es/verbalizers/date.py:56-72 | With the marker correction, a framed day-month record gives exactly `D de M'` with every U+00A0 turned back into a space, whatever markers follow. |
| `EsDate.VerbalizeDayMonthRecordAsWritten` | nemo_text_processing/inverse_text_normalization/es/verbalizers/date.py:56-72 | As written, a framed day-month record gives exactly `D de M'` followed by its markers' field characters, with every U+00A0 turned back into a space. |
| `EsDate.EneroExample` | nemo_text_processing/inverse_text_normalization/es/verbalizers/date.py:31 | `date { day: "1" month: "enero" preserve_order: true }` gives exactly `1 de enero`, by the verbalizer as written and by the corrected one. |
| `EsDate.FieldOrderLeaksIntoDate` | nemo_text_processing/inverse_text_normalization/es/verbalizers/date.py:60-64 | As written, `day: "1" month: "enero" field_order: "d"` gives `1 de enerod`; corrected, it gives `1 de enero`. |
| `EsDate.FramedFieldOrderLeak` | nemo_text_processing/inverse_text_normalization/es/verbalizers/date.py:56-72 | `date { day: "1" month: "enero" field_order: "d" }` gives exactly `1 de enerod` as written and exactly `1 de enero` corrected. |
| `HiVerbalizeFinal.Block` | nemo_text_processing/inverse_text_normalization/hi/verbalizers/verbalize_final.py:35-43 | Defines one block: `tokens`, whitespace, `{`, whitespace, the verbalizers, whitespace and `}` deleted; `HiVerbalizeFinal.BlockIsTypesOfContent` states its meaning. |
| `HiVerbalizeFinal.Blocks` | nemo_text_processing/inverse_text_normalization/hi/verbalizers/verbalize_final.py:44 | Defines the closure of blocks each followed by `delete_extra_space`, then a last block; `HiVerbalizeFinal.JoinBlocks` and `HiVerbalizeFinal.BlocksShape` state its meaning. |
| `HiVerbalizeFinal.Sentence` | nemo_text_processing/inverse_text_normalization/hi/verbalizers/verbalize_final.py:44 | Defines the sentence: the blocks with whitespace deleted around them; `HiVerbalizeFinal.SentenceIsBlocksOfStrip` states its meaning. |
| `HiVerbalizeFinal.TypesKeepBlindness` | nemo_text_processing/inverse_text_normalization/hi/verbalizers/verbalize_final.py:32-34 | The union of two verbalizers blind to surrounding whitespace is blind to it too. |
| `HiVerbalizeFinal.BlocksShape` | nemo_text_processing/inverse_text_normalization/hi/verbalizers/verbalize_final.py:35-44 | Every accepted block sequence starts with `tokens` and ends with a closing brace. |
| `HiVerbalizeFinal.BlocksTrimmed` | nemo_text_processing/inverse_text_normalization/hi/verbalizers/verbalize_final.py:35-44 | An accepted block sequence is non-empty and has no whitespace at either end. |
| `HiVerbalizeFinal.SentenceIsBlocksOfStrip` | nemo_text_processing/inverse_text_normalization/hi/verbalizers/verbalize_final.py:44 | The sentence means exactly the block sequence of its whitespace-stripped text. |
| `HiVerbalizeFinal.SentenceBlindToSurroundingSpace` | nemo_text_processing/inverse_text_normalization/hi/verbalizers/verbalize_final.py:44 | Whitespace added around a sentence changes none of its outputs. |
| `HiVerbalizeFinal.AllWhiteSpaceRejected` | nemo_text_processing/inverse_text_normalization/hi/verbalizers/verbalize_final.py:44 | Empty and all-whitespace input is rejected: at least one block is needed. |
| `HiVerbalizeFinal.JoinBlocks` | nemo_text_processing/inverse_text_normalization/hi/verbalizers/verbalize_final.py:44 | A block and a block sequence separated by any non-empty whitespace run are joined by exactly one space. |
| `HiVerbalizeFinal.BlockOfAddTokens` | nemo_text_processing/inverse_text_normalization/hi/verbalizers/verbalize_final.py:35-43 | Every verbalization of `T` is an output of the block `tokens { T }`. |
| `HiVerbalizeFinal.BlockIsTypesOfContent` | nemo_text_processing/inverse_text_normalization/hi/verbalizers/verbalize_final.py:34-43 | For verbalizers blind to surrounding whitespace, the block `tokens { T }` means exactly the verbalizations of trimmed `T`. |
| `HiVerbalizeFinal.RecordsVerbalized` | nemo_text_processing/inverse_text_normalization/hi/verbalizers/verbalize_final.py:44 | Framed records separated by any whitespace runs are verbalized by the single-space join of one verbalization per record. |
| `HiCache.LastSlash` | nemo_text_processing/text_normalization/hi/taggers/tokenize_and_classify.py:69 | The position of a slash with no slash after it, or -1 for a path without one. |
| `HiCache.Basename` | nemo_text_processing/text_normalization/hi/taggers/tokenize_and_classify.py:69 | `os.path.basename`: a slash-free suffix of the path with a slash right before it whenever it is shorter than the path. |
| `HiCache.BasenameAfterSlash` | nemo_text_processing/text_normalization/hi/taggers/tokenize_and_classify.py:69 | The base name of `dir/name` is `name` for a slash-free name. |
| `HiCache.CacheName` | nemo_text_processing/text_normalization/hi/taggers/tokenize_and_classify.py:72 | Defines the archive name `hi_tn_{det}_deterministic_{case}_{whitelist}_tokenize.far`; `HiCache.CacheNameKeyed` states what it determines. |
| `HiCache.FarFile` | nemo_text_processing/text_normalization/hi/taggers/tokenize_and_classify.py:66-73 | The archive name exists exactly when the cache directory is neither None, `"None"` nor empty; an empty directory fails in `os.makedirs`. The path is the directory, one slash unless the directory already ends in one, and `hi_tn_{det}_deterministic_{case}_{whitelist}_tokenize.far`, which is its base name when the input case has no slash. |
| `HiCache.JoinedBasename` | nemo_text_processing/text_normalization/hi/taggers/tokenize_and_classify.py:70-73 | `os.path.join` of a non-empty directory and a slash-free name has that name as its base name. |
| `HiCache.NoCacheDirectoryRebuilds` | nemo_text_processing/text_normalization/hi/taggers/tokenize_and_classify.py:66-77 | Without a cache directory there is no archive name, so the grammar is rebuilt and nothing is saved. |
| `HiCache.CacheNameKeyed` | nemo_text_processing/text_normalization/hi/taggers/tokenize_and_classify.py:72 | For the known input cases, the archive name determines the determinism flag, the input case and the whitelist name. |
| `HiCache.WhitelistDirectoryIgnored` | nemo_text_processing/text_normalization/hi/taggers/tokenize_and_classify.py:69-72 | Whitelists of the same base name in different directories share one archive. |
| `HiCache.ChoosePlan` | nemo_text_processing/text_normalization/hi/taggers/tokenize_and_classify.py:74-77 | The archive is restored exactly when overwriting is off and the named archive exists; otherwise the grammar is rebuilt and saved under the archive name, if any. |
| `HiCache.SecondConstructionRestores` | nemo_text_processing/text_normalization/hi/taggers/tokenize_and_classify.py:74-169 | With an archive name, after any first construction, a second one that does not overwrite restores the archive. |
| `HiClassify.Classify` | nemo_text_processing/text_normalization/hi/taggers/tokenize_and_classify.py:126-135 | Defines `classify` with the word fallback: each sub-classifier's paths at its weight (whitelist 101, the others 110, word 10000); `HiClassify.CheapestIsLightestClass` states its cheapest paths. |
| `HiClassify.CheapestIsLightestClass` | nemo_text_processing/text_normalization/hi/taggers/tokenize_and_classify.py:126-148 | The cheapest paths of the union are exactly the outputs of the lightest accepting classes, at those classes' weights. |
| `HiClassify.WhitelistWins` | nemo_text_processing/text_normalization/hi/taggers/tokenize_and_classify.py:126-135 | On a span the whitelist accepts, the cheapest paths are exactly the whitelist's outputs at weight 1.01. |
| `HiClassify.WordOnlyAsLastResort` | nemo_text_processing/text_normalization/hi/taggers/tokenize_and_classify.py:148 | A word-fallback path is among the cheapest exactly when the word grammar produced it and no other class accepts the span. |
| `HiSentence.Prefix` | nemo_text_processing/text_normalization/hi/taggers/tokenize_and_classify.py:151 | Defines `closure(punct + insert(" "))` before the token; `HiSentence.PrefixFaithful` states its meaning. |
| `HiSentence.Suffix` | nemo_text_processing/text_normalization/hi/taggers/tokenize_and_classify.py:151 | Defines `closure(insert(" ") + punct)` after the token; `HiSentence.SuffixFaithful` states its meaning. |
| `HiSentence.TokenPlusPunct` | nemo_text_processing/text_normalization/hi/taggers/tokenize_and_classify.py:149-152 | Defines `token_plus_punct`: a prefix, one framed token and a suffix; `HiSentence.TokenPlusPunctFaithful` states its meaning. |
| `HiSentence.Separator` | nemo_text_processing/text_normalization/hi/taggers/tokenize_and_classify.py:156-157 | Defines the separator: a whitespace run read as one space, or a punctuation run with a space on each side; `HiSentence.SeparatorFaithful` states its meaning. |
| `HiSentence.Graph` | nemo_text_processing/text_normalization/hi/taggers/tokenize_and_classify.py:154-160 | Defines `token_plus_punct` followed by any number of separator and `token_plus_punct` pairs; `HiSentence.GraphFaithful` and `HiSentence.GraphAccepts` state its meaning. |
| `HiSentence.Sentence` | nemo_text_processing/text_normalization/hi/taggers/tokenize_and_classify.py:162-163 | Defines the classifier's sentence: the graph with whitespace deleted around it, or a punctuation run alone; `HiSentence.SentenceFaithful` and `HiSentence.SentenceAcceptance` state its meaning. |
| `HiSentence.PunctRun` | nemo_text_processing/text_normalization/hi/taggers/tokenize_and_classify.py:141-146 | The punctuation closure reads exactly the non-empty item runs without a token, and its output starts with a space. |
| `HiSentence.PunctRunFaithful` | nemo_text_processing/text_normalization/hi/taggers/tokenize_and_classify.py:141-146 | A punctuation run frames each punctuation output in order at weight 2.1 (210) each, with no two frames adjacent. |
| `HiSentence.TokenPlusPunctFaithful` | nemo_text_processing/text_normalization/hi/taggers/tokenize_and_classify.py:149-152 | `token_plus_punct` frames its token and punctuation outputs in order at their weights, and the items hold exactly one token, with none before or after it. |
| `HiSentence.SeparatorFaithful` | nemo_text_processing/text_normalization/hi/taggers/tokenize_and_classify.py:154-158 | A separator holds no token, is framed faithfully, and starts and ends with a space. |
| `HiSentence.GraphFaithful` | nemo_text_processing/text_normalization/hi/taggers/tokenize_and_classify.py:154-160 | Every graph output frames the items' outputs in order at their summed weights, and no two tokens of the input are adjacent. |
| `HiSentence.SentenceFaithful` | nemo_text_processing/text_normalization/hi/taggers/tokenize_and_classify.py:141-163 | Every classifier output frames exactly the punctuation and token outputs in input order, costs the sum of their weights and never puts two frames side by side; the input is non-empty with no two adjacent tokens. |
| `HiSentence.GraphAccepts` | nemo_text_processing/text_normalization/hi/taggers/tokenize_and_classify.py:150-160 | Every item sequence with a token and no two adjacent tokens is read by the graph. |
| `HiSentence.SentenceAcceptance` | nemo_text_processing/text_normalization/hi/taggers/tokenize_and_classify.py:154-163 | The classifier accepts exactly the non-empty item sequences with no two adjacent tokens, punctuation-only input included. |
| `HiSentence.EdgeWhiteSpaceDeleted` | nemo_text_processing/text_normalization/hi/taggers/tokenize_and_classify.py:162 | Whitespace around a sentence with a token keeps every output of the bare sentence. |
| `HiSentence.OneTokenSentence` | nemo_text_processing/text_normalization/hi/taggers/tokenize_and_classify.py:149-162 | A lone token becomes exactly `tokens { out }` at its class's weight. |
| `HiSentence.TokensAcrossWhiteSpace` | nemo_text_processing/text_normalization/hi/taggers/tokenize_and_classify.py:142-160 | Whitespace between two tokens is read as one space, and also as three spaces at the same cost (two of its equal-cost readings). |

## Left out

- The pynini/OpenFst algebra itself: composition, `optimize`, `cdrewrite`, determinization and the shortest-path search. Each grammar is modelled by its denotation, the set of outputs per input.
- Float weights: costs are integers, the source's weights times 100. `MIN_NEG_WEIGHT` and `MIN_POS_WEIGHT` are unused by the modelled code.
- The choice among outputs of equal cost, and the `deterministic` flag's effect on sub-grammars: the model keeps every output.
- FAR archive reading and writing (`generator_main`, `Far`), `os.makedirs` beyond its failure on the empty name, and `os.path.exists`: archive existence is a parameter.
- Logging and timing.
- The data files `suppletive.tsv`, `months.tsv`, `months_cased.tsv` and the whitelist TSVs: they are map or sequence parameters, and `load_labels` is not part of this model.
- The sub-grammars `VerbalizeFst`, `WordFst`, `CardinalFst`, `DecimalFst`, `FractionFst`, `DateFst` (tagger), `TimeFst`, `MeasureFst`, `MoneyFst`, `WhiteListFst` and `PunctuationFst`: they are parameters. The classifier's sentence grammar works on a sequence of items already segmented and read by them.
- `en/graph_utils.py` and `hi/graph_utils.py` are not part of this model. Their `delete_space`, `delete_extra_space` and `insert_space` are taken to be the ones at ja/graph_utils.py:84-87. The Spanish date verbalizer also imports `NEMO_NOT_QUOTE` and `GraphFst` from `en/graph_utils.py` (es/verbalizers/date.py:19-25), so its `delete_tokens` and the U+00A0 rewrite in it are modelled by the ja definitions, `Tokens.DeleteTokens` and `Tokens.NbspToSpace`.
- EsDate.DateVerbalize: it is the corrected verbalizer, which deletes the `field_order` characters; the verbalizer as written is `EsDate.DateVerbalizeAsWritten`.
- `tests/nemo_text_processing/es/test_ordinal.py`: it drives whole normalizers over test data and holds no grammar logic.
- `get_plurals` and `get_singulars` compose the plural rewrite with another grammar; the rewrite and its inverse are modelled, the composition is not.
- Characters are handled as ASCII for casing; Unicode casing in `str.upper`, `str.lower` and `str.capitalize` beyond ASCII is not modelled.
- GraphUnit.FarPathKeyedByKindAndName: the archive path is modelled as the joined string before `Path()` normalises it (ja/graph_utils.py:248). Path normalisation drops repeated slashes and `.` parts, so kinds `""` and `"."`, or names `"./x"` and `"x"`, give the same archive. The lemma is therefore about the string only. For the documented kinds `classify` and `verbalize` (ja/graph_utils.py:237) normalisation never merges two kinds, but names with `.` parts or repeated slashes can still share an archive.
- HiVerbalizeFinal.RecordsVerbalized: states that the single-space join is an output, not that it is the only one, because a record's content may itself contain braces and whitespace that give other readings.
- HiSentence.EdgeWhiteSpaceDeleted: states inclusion only, because edge whitespace can also be read as a punctuation group, which gives extra outputs with leading spaces at the same cost.
- HiSentence.TokensAcrossWhiteSpace: shows two of the equal-cost readings of one whitespace run between two tokens, not all of them, and does not characterise all outputs of longer sentences, which `HiSentence.SentenceFaithful` bounds.
- HiClassify.Classify: the sub-classifiers are unweighted grammars, so their own path weights are taken as zero and a path costs only its class weight. In the source, `add_weight` (tokenize_and_classify.py:126-133 and :147) adds the class weight to the sub-grammar's own costs, such as those `capitalized_input_graph` and the `string_map_cased` weight column give. `HiClassify.WhitelistWins`, `HiClassify.CheapestIsLightestClass`, `HiClassify.WordOnlyAsLastResort` and the cost clause of `HiSentence.SentenceFaithful` hold under that assumption.

## Findings

| source | as written | input that shows it | evidently intended | confidence | as-written member | corrected member |
|---|---|---|---|---|---|---|
| nemo_text_processing/text_normalization/ja/graph_utils.py:88-91 | The `field_order` character is matched by `NEMO_NOT_QUOTE`, an acceptor, so it is copied to the output | ` field_order: "d"` outputs `d` | Every order marker is deleted and leaves no output | not executed | `Tokens.FieldOrderLeakExample` | `Tokens.DeletePreserveOrderDeletesMarkers` |
| nemo_text_processing/inverse_text_normalization/es/verbalizers/date.py:58-66 | The `field_order` character is matched by `NEMO_NOT_QUOTE`, an acceptor, so it trails the verbalized date | `date { day: "1" month: "enero" field_order: "d" }` gives `1 de enerod` | The marker is deleted and the date reads `1 de enero` | not executed | `EsDate.FramedFieldOrderLeak` | `EsDate.VerbalizeDayMonthRecord` |
