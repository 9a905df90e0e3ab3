# sqlparams in Dafny

A model of the Go package `sqlparams`, written in Dafny, with proofs about it. The package has three text transforms for SQL queries:

- **`Inline`** (sqlparams.go) builds a human-readable statement. Every placeholder is replaced by its argument, encoded as an SQL literal. There are three placeholder styles: positional `?`, numbered `$n` and named `:name`. The arguments can take three shapes: a flat list, a single struct, or a single `map[string]any`.
- **`In`** (in.go) expands slice arguments for driver binding. The `?` bound to a slice of length L becomes L placeholders, and the slice's elements are spliced into the argument list.
- **`Rebind`** (in.go) renumbers the i-th `?` as `$i`.

Go's reflection over `any` is replaced by closed datatypes:

- `Encoder.Value` holds `Inline`'s arguments. There is one case per branch of `convertParams`'s type switch. Valuers, Stringers and pointers carry what they produce or point to.
- `ExpandIn.Arg<V>` holds `In`'s arguments. V is an opaque scalar type.

A Go string is a sequence of characters, one per byte.

Modules:

- `Wrappers` (wrappers.dfy): `Option` and `Result`.
- `Text` (text.dfy): the quote-escaping rule and its inverse, decimal rendering, ASCII lower-casing, joining, repetition and counting.
- `SeqFacts` (seqs.dfy): generic slicing and concatenation identities used by the loop proofs.
- `Encoder` (encoder.dfy):
  - `Encode`, the literal of one value (`convertParams`), with `toString`, `sliceToArray` and `isPrintable`;
  - the class `LiteralTable`, the `vars` map that `convertParams` fills in place.
- `Placeholders` (placeholders.dfy):
  - style detection;
  - the two regular expressions as left-to-right scanners that cut a query into pieces;
  - the intermediate `$n$` / `c$:name$` tokens and their substitution.
- `Inline` (inline.dfy):
  - argument classification and the struct, map and list loops, which fill the `LiteralTable`;
  - the `?` renderer as a byte loop;
  - the `Inline` method, proved equal to the specification function `InlineSpec`.
- `ExpandIn` (expand_in.dfy):
  - the two loops of `In`, proved equal to the specification `InSpec`/`ExpandSpec`: a character-by-character recursion, with `In`'s error cases as a `Result`;
  - `appendReflectSlice`;
  - `Rebind`, proved equal to the recursion `RebindFrom`.

The model keeps these behaviours of the code as written:

- `Inline` ignores the error a Valuer returns (sqlparams.go:81). It is not propagated.
- When no argument of `In` is a slice, the original query and the original, not yet unwrapped, arguments come back with no placeholder count check (in.go:60-64). A mismatch there is therefore not an error.
- The `?` renderer looks a literal up by integer key, bounded by the size of the map (sqlparams.go:252-253). It does not use insertion order.
- An unmatched `$n` is left as the token `$n$`, not as `$n`.
- With zero arguments `Inline` returns the query unchanged, even when it has no placeholder (sqlparams.go:36-39). The "placeholder is undefined" text needs at least one argument.

## Model

| member | source | states |
|---|---|---|
| Text.UnescapeEscape | sqlparams.go:104 | Reading the escaped text left to right and turning each two-character `\'` back into `'` recovers the original. The replacement is injective. |
| Text.QuoteRoundTrip | sqlparams.go:104 | A quoted literal starts and ends with `'`. Stripping those quotes and unescaping gives back the text. |
| Text.EscapedQuotesArePrefixed | sqlparams.go:104 | Every `'` inside the escaped text is preceded by a backslash. So the only bare quotes of a literal are its delimiters. |
| Text.NatToString | sqlparams.go:295-304 | The decimal text of a natural number is non-empty and all digits. It starts with `0` only for the number 0. |
| Text.NatToStringRoundTrip | sqlparams.go:295-304 | Reading the decimal digits back gives the number. |
| Text.NatToStringInjective | sqlparams.go:237 | Different argument positions give different `$n$` tokens. |
| Text.IntToString | sqlparams.go:285-294 | A non-negative integer is its decimal digits. A negative one is `-` followed by the digits of its magnitude. |
| Text.IntToStringRoundTrip | sqlparams.go:285-294 | The decimal text of every integer, negative or not, is digits or `-` and digits, and reads back to that integer. |
| Text.Escape | sqlparams.go:104 | Defines the replacement of every `'` by `\'`. The result is never shorter than the input, and `Unescape` inverts it (`UnescapeEscape`). |
| Text.ToLower | sqlparams.go:196 | Lower-casing keeps the length and maps each character by itself: A-Z to a-z, everything else unchanged. |
| Encoder.IsPrintable | sqlparams.go:266-273 | The loop answers true exactly when every byte is printable. When it answers false, some byte is not printable. |
| Encoder.SliceToArray | sqlparams.go:309-316 | The array literal is `ARRAY[`, then each element's `toString` in input order joined by `, `, then `]`. |
| Encoder.EmptyArrayLiteral | sqlparams.go:309-316 | An empty slice gives `ARRAY[]`. |
| Encoder.IntArrayElementCount | sqlparams.go:309-316 | An integer slice literal has exactly len-1 commas, one per separator. So there is one element per input. |
| Encoder.IntArrayExample | sqlparams.go:107-108 | The integer slice 1, 2, 3 encodes as `ARRAY[1, 2, 3]`. |
| Encoder.IntToStringHasNoComma | sqlparams.go:285-294 | Integer elements are unquoted decimal text, with no comma. |
| Encoder.JoinCount | sqlparams.go:314 | Joining parts that lack a character c gives as many c's as the separators hold. |
| Encoder.ToStringOfString | sqlparams.go:277-284 | `toString` agrees with the string encoding, unless the string already contains `\'`. Then it is quoted without escaping. |
| Encoder.ToStringNotInjective | sqlparams.go:279-280 | Because of that shortcut, the strings `\'` and `'` give the same array element. |
| Encoder.Resolve | sqlparams.go:78-85 | Following Valuer results and non-nil pointers ends at a value that is neither. |
| Encoder.EncodeResolve | sqlparams.go:129-133 | A Valuer or a non-nil pointer encodes as what it produces or points to. |
| Encoder.EncodeNull | sqlparams.go:58-144 | A value encodes as unquoted `NULL` exactly when, after following Valuers and pointers, it is one of: nil, a nil pointer, a nil `*time.Time`, a nil-receiver Valuer or Stringer, or the float whose rendering is the text NULL. A Valuer that produces nil is included. |
| Encoder.EncodeTextRoundTrip | sqlparams.go:86-104 | Strings, Stringer text, printable byte slices and the textual fallback become quoted literals that unquote back to their text. |
| Encoder.Encode | sqlparams.go:58-144 | Defines the literal of each value case, following the type switch of `convertParams`. `LiteralTable.Convert` updates the table with it, and `EncodeNull`, `EncodeTextRoundTrip` and `EncodeResolve` state its properties. |
| Encoder.ToString | sqlparams.go:275-307 | Defines `toString` for the element kinds of `sliceToArray`. `ToStringOfString` relates it to `Encode`. |
| Encoder.ArrayLiteral | sqlparams.go:309-316 | Defines the `ARRAY[...]` literal. `SliceToArray` computes it, and `EmptyArrayLiteral`, `IntArrayElementCount` and `IntArrayExample` state its properties. |
| Encoder.LiteralTable.constructor | sqlparams.go:43 | The table starts empty. |
| Encoder.LiteralTable.Convert | sqlparams.go:58-144 | `convertParams(v, idx)` sets entry idx of the table to the literal of v. It leaves every other entry as it was. |
| Placeholders.Detect | sqlparams.go:47-56 | The style is positional if and only if the query has a `?`. It is numbered if and only if there is no `?` and a `$digit` match exists. It is named if and only if neither of those holds and a `c:ident` match (c not a colon) exists. Otherwise it is undefined. |
| Placeholders.HasNumbered | sqlparams.go:50 | `numericPlaceholder.MatchString`: some position starts a `$digit` match. A query without `$` never has one. |
| Placeholders.HasNamed | sqlparams.go:52 | `namedPlaceholder.MatchString`: some position starts a `c:ident` match. A query without `:` never has one. |
| Placeholders.DigitRun | sqlparams.go:25 | The digit run after `$` is maximal: all digits, followed by a non-digit or by the end. |
| Placeholders.IdentRun | sqlparams.go:26 | The identifier run after `:` is maximal over `[a-z0-9_]`. |
| Placeholders.ScanNumbered | sqlparams.go:232 | Defines the leftmost, greedy, non-overlapping matches of `\$(\d+)` as pieces. The lemmas below prove the cut lossless, its matches maximal and complete. |
| Placeholders.ScanNamed | sqlparams.go:240 | Defines the leftmost, greedy, non-overlapping matches of `([^:])(:[a-z0-9_]+)` as pieces. The lemmas below prove the cut lossless, its matches maximal, non-overlapping and complete. |
| Placeholders.PieceToken | sqlparams.go:232-240 | Defines the tokens the two replacement templates produce: `$$$1$$` (line 232) gives `$d$` for a numbered piece, and `$1$$$2$$` (line 240) gives `c$:id$` for a named one. |
| Placeholders.PieceOut | sqlparams.go:233-246 | Defines one token after the replace loop: the literal of its key when the table has one (the prefix character kept for a named token), else the token itself. |
| Placeholders.Substituted | sqlparams.go:233-246 | Defines the rendered query as the pieces after substitution, in order. `SubstitutedAppend` and `SubstitutedWithoutMatches` state its properties. |
| Placeholders.ScanNumberedLossless | sqlparams.go:232 | Cutting a query at the `\$(\d+)` matches loses and adds no text. |
| Placeholders.ScanNamedLossless | sqlparams.go:240 | Cutting a query at the `([^:])(:[a-z0-9_]+)` matches loses and adds no text. |
| Placeholders.ScanNumberedWellFormed | sqlparams.go:25 | Every numbered piece is a non-empty, maximal digit run. `$1` is never cut out of `$12`. |
| Placeholders.ScanNamedWellFormed | sqlparams.go:26 | Every named piece is a non-empty, maximal identifier run whose colon follows a non-colon character. `::text` is not a placeholder. `:name` is never cut out of `:name2`, and two matches never overlap. |
| Placeholders.ScanNumberedComplete | sqlparams.go:232 | No match is left behind: a `$` kept as text is never followed by a digit kept as text. So every `$digits` of the query becomes a `$n$` token. |
| Placeholders.ScanNamedComplete | sqlparams.go:240 | No match is left behind: a non-colon character and a colon kept as text are never followed by an identifier character. So every `c:ident` match becomes a `c$:ident$` token. |
| Placeholders.LeadingColonIsText | sqlparams.go:26 | A `:x` at offset 0 is not a placeholder. |
| Placeholders.HasNumberedIffPiece | sqlparams.go:50-51 | The regex finds a numbered match exactly when the scanner cuts out a numbered piece. |
| Placeholders.HasNamedIffPiece | sqlparams.go:52-53 | The regex finds a named match exactly when the scanner cuts out a named piece. |
| Placeholders.NumberedKeyOf | sqlparams.go:237 | The token `$d$` is looked up under key idx exactly when d is `Itoa(idx + 1)`. So only canonical decimal digits (at least 1, no leading zero) are looked up, and `$01` stays a token. |
| Placeholders.SubstitutedWithoutMatches | sqlparams.go:232-238 | When no piece finds a literal, the result is the tokenized query. Unmatched `$n` survive as `$n$`. |
| Placeholders.SubstitutedAppend | sqlparams.go:233-246 | Substitution works piece by piece: on a concatenation it is the concatenation of the two results. |
| Inline.Classify | sqlparams.go:146-228 | Zero or several arguments are a positional list in argument order. A single argument is read as a struct exactly when it is a struct or a non-nil pointer to one, and then its fields are the struct's fields. It is read as a map exactly when it is a `map[string]any` or a non-nil pointer to one, and then its entries are the map's. Anything else is a one-element list. |
| Inline.Exported | sqlparams.go:173-176 | Every kept field is an exported field of the struct, and every exported field of the struct is kept. |
| Inline.ExportedAppend | sqlparams.go:173-176 | The filter distributes over concatenation, so the kept fields are in struct order. A single field is kept exactly when it is exported. |
| Inline.InlineNoArgs | sqlparams.go:36-39 | With no arguments the query is returned unchanged. |
| Inline.InlineUndefined | sqlparams.go:47-56 | When no style applies, the result is exactly `placeholder is undefined: ` followed by the query. That happens only for queries with no `?`, no `$digit` and no `c:ident`. |
| Inline.PosRender | sqlparams.go:248-260 | Defines the `?` renderer from the (k+1)-th placeholder on. `RenderPositional` computes it, and the lemmas below state its properties. |
| Inline.PosRenderAt | sqlparams.go:250-256 | The `?` that follows k others receives literal k, while k is below the size of the table. The text before and after it is rendered independently. |
| Inline.PosRenderAppend | sqlparams.go:248-260 | Rendering a + b renders a, then renders b with the counter advanced by the number of `?` in a. Nothing is re-scanned. |
| Inline.PosRenderExhausted | sqlparams.go:252-258 | Once the counter reaches the size of the table, the remaining text, `?` included, is copied verbatim. |
| Inline.PosRenderNoPlaceholder | sqlparams.go:258 | Text without `?` is copied byte for byte. |
| Inline.FieldLiterals | sqlparams.go:173-206 | Defines the table of a struct argument and the final value of the counter `num`. `ConvertStruct` computes it, and `FieldLiteralsNumbered`, `FieldLiteralsNamedKeys` and `FieldLiteralsNamedValues` characterise it. |
| Inline.MapLiterals | sqlparams.go:216-218 | Defines the table of a map argument. `ConvertMap` computes it, and `MapLiteralsShape` characterises it. |
| Inline.ListLiterals | sqlparams.go:225-227 | Defines the table of a list of arguments. `ConvertList` computes it, and `ListLiteralsShape` characterises it. |
| Inline.ListLiteralsShape | sqlparams.go:225-227 | A list gives exactly one literal per position 0..n-1, and that literal is the argument's encoding. |
| Inline.InlinePositionalList | sqlparams.go:247-260 | With several arguments and `?` placeholders, the k-th `?` (0-based) receives the literal of argument k. |
| Inline.NumberedPieceWithList | sqlparams.go:232-238 | With a list, every occurrence of `$n` receives the same literal, that of argument n-1, when it exists. Otherwise it stays `$n$`. |
| Inline.FieldLiteralsNumbered | sqlparams.go:173-206 | With positional or numbered placeholders, the struct's exported fields get keys 0, 1, ... in order, whatever the unexported fields in between. Each key holds the literal of its field's value. A pointer field is dereferenced once, and a nil pointer field contributes nil. |
| Inline.FieldLiteralsNamedKeys | sqlparams.go:183-201 | With named placeholders, the keys are exactly the exported fields' keys: the non-empty `db` tag, else the lower-cased name. |
| Inline.FieldLiteralsNamedValues | sqlparams.go:177-201 | Under a named key sits the literal of the last exported field with that key. A pointer field is dereferenced once. |
| Inline.MapLiteralsShape | sqlparams.go:209-218 | A map gives one literal per key, the encoding of that key's value, and no other entry. |
| Inline.ConvertStruct | sqlparams.go:173-206 | The field loop, with its counter `num`, fills the table with the struct's literals. |
| Inline.ConvertMap | sqlparams.go:216-218 | The map loop, in any iteration order, fills the table with the map's literals. |
| Inline.ConvertList | sqlparams.go:225-227 | The list loop puts argument i under key i. |
| Inline.RenderPositional | sqlparams.go:248-260 | The byte loop with counter `idx` computes the positional rendering of the query. |
| Inline.InlineSpec | sqlparams.go:35-264 | Defines what `Inline` returns: the query for no arguments, the undefined-style text, or the rendering in the detected style. `Inline.Inline` computes it. |
| Inline.Inline | sqlparams.go:35-264 | `Inline` returns `InlineSpec`: the query, the undefined-style text, or the rendering in the detected style of the literal table for the classified arguments. |
| ExpandIn.AsSliceForIn | in.go:118-138 | nil, `[]byte` and scalars are not treated as slices. |
| ExpandIn.IndexOfQ | in.go:73 | `IndexByte` gives -1 exactly when there is no `?`. Otherwise it gives the position of the first `?`. |
| ExpandIn.AppendReflectSlice | in.go:148-167 | The slice's elements are appended in order after the arguments collected so far. |
| ExpandIn.PrepareArgs | in.go:35-58 | The first loop records one entry per argument, or stops with the first Valuer error or empty slice. `anySlices` is true exactly when some entry is a slice, and every recorded slice is non-empty. |
| ExpandIn.WriteSpread | in.go:95-99 | The buffer receives the query up to and including the `?`, then L-1 copies of `, ?`. |
| ExpandIn.SpliceSlice | in.go:94-106 | A slice step writes the widened placeholder, appends the elements and re-slices the query. The loop invariant is kept. |
| ExpandIn.ExpandSingleStep | in.go:88-92 | A scalar step only moves the offset past the `?` and appends the value. The loop invariant is kept. |
| ExpandIn.ExpandSpreadStep | in.go:94-106 | Writing the buffer, appending the elements and re-slicing at a slice argument keeps the loop invariant. |
| ExpandIn.ExpandTooMany | in.go:74-79 | A `?` found after all arguments are used up makes the whole call fail with "number of bindVars exceeds arguments". |
| ExpandIn.ExpandExit | in.go:109-115 | When no `?` is left, the result is the buffer plus the rest of the query, or "number of bindVars less than number arguments" if arguments remain. |
| ExpandIn.ExpandNoPlaceholder | in.go:109-113 | A query without `?` finishes the expansion with success exactly when no arguments remain. |
| ExpandIn.ExpandPlainPrefix | in.go:88-109 | Text before the next `?` goes to the output unchanged and in order. |
| ExpandIn.ExpandFront | in.go:88-106 | The first `?` consumes the first argument, widening it to its placeholders and contributing its values. |
| ExpandIn.ExpandQuery | in.go:66-115 | The second loop computes `ExpandSpec`: the expanded query and arguments, or the count error. |
| ExpandIn.In | in.go:14-116 | `In` returns `InSpec`: the first error of the first loop, the unchanged query and arguments when no slice is present, or the expansion. |
| ExpandIn.Prepare | in.go:35-58 | Defines the first loop: one entry per argument in order, or the first error. `PrepareArgs` computes it. |
| ExpandIn.ExpandSpec | in.go:66-115 | Defines the second loop character by character: each `?` takes the next entry, widened, and the count errors. `ExpandQuery` computes it. |
| ExpandIn.InSpec | in.go:14-116 | Defines what `In` returns. `In` computes it, and `InWithoutSlices`, `InWithSlices`, `InEmptySlice` and `InValuerFails` state its cases. |
| ExpandIn.PrepareSucceeds | in.go:35-58 | The first loop succeeds exactly when every argument is acceptable, then records one entry per argument: the outcome of preparing it. |
| ExpandIn.PrepareFirstFailure | in.go:35-58 | The error returned is that of the first bad argument. Later arguments are not looked at. |
| ExpandIn.PreparedEntry | in.go:44-57 | A recorded entry stands for the argument's values and has positive width. It is a slice entry exactly when the unwrapped argument is a slice. |
| ExpandIn.ExpandOutcome | in.go:73-113 | The expansion succeeds exactly when the number of `?` equals the number of arguments. It fails with "exceeds" exactly when there are more `?` and with "less than" exactly when there are fewer. |
| ExpandIn.CountRepeat | in.go:97-99 | L copies of `, ?` hold L placeholders. |
| ExpandIn.CountWiden | in.go:95-99 | A widened placeholder holds as many `?` as its argument has values. |
| ExpandIn.ExpandSuccessShape | in.go:88-107 | On success the output arguments are the entries' values spliced in order, and the output query has one `?` per output argument. |
| ExpandIn.FlattenLength | in.go:66 | The number of output arguments is the sum of the widths, which is `flatArgsCount`. |
| ExpandIn.FlattenValues | in.go:90-101 | The spliced arguments are each argument's values in argument order: scalars unwrapped, slices element by element. |
| ExpandIn.FlattenPrepared | in.go:35-58 | For a successful first loop: the spliced arguments are the flat values, every entry has positive width, and `anySlices` holds exactly when some unwrapped argument is a slice. |
| ExpandIn.InWithoutSlices | in.go:60-64 | With no slice among the unwrapped arguments, the query and the original arguments come back unchanged, whatever the number of `?`. |
| ExpandIn.InWithSlices | in.go:66-115 | With a slice present: success exactly when the `?` count equals the argument count, with the two count errors otherwise. On success the arguments are the flat values and the query has one `?` per output argument. |
| ExpandIn.InEmptySlice | in.go:51-53 | An empty slice after acceptable arguments gives "empty slice passed to 'in' query". |
| ExpandIn.InValuerFails | in.go:36-41 | A Valuer error after acceptable arguments is returned as it is. |
| ExpandIn.BytesAndNilNotExpanded | in.go:118-138 | `[]byte` and nil pass through as one value with one placeholder. |
| ExpandIn.ExamplePrepare | in.go:35-58 | The arguments `[]int{1, 2, 3}` and 5 are recorded as one slice entry and one scalar entry. |
| ExpandIn.InExample | sqlparams_test.go:242-253 | `SELECT id FROM table WHERE id IN (?) AND pid = ?` with the arguments `[]int{1, 2, 3}` and 5 becomes `SELECT id FROM table WHERE id IN (?, ?, ?) AND pid = ?` with the arguments 1, 2, 3, 5. |
| ExpandIn.RebindFrom | in.go:169-186 | Defines the renumbering character by character, with the number of the next `?`. `Rebind` computes it from 1. |
| ExpandIn.Rebind | in.go:169-186 | The loop computes `RebindFrom(query, 1)`. |
| ExpandIn.RebindAppend | in.go:175-183 | Rebinding a + b rebinds a, then rebinds b numbering on from the `?` count of a. |
| ExpandIn.RebindStep | in.go:175-183 | One iteration appends the text before the first `?`, a `$` and the next number, and continues after the `?` with the number advanced. |
| ExpandIn.RebindNoPlaceholder | in.go:185 | A query without `?` is returned as it is. |
| ExpandIn.RebindPlainPrefix | in.go:176 | Text without `?` is copied unchanged in front of the rest. |
| ExpandIn.RebindPlaceholderFront | in.go:177-182 | A leading `?` becomes `$j` and the numbering continues at j+1. |
| ExpandIn.RebindNumbersInOrder | in.go:175-183 | The `?` preceded by k-1 others becomes `$k`. The text around it is rebound independently. |
| ExpandIn.RebindLeavesNoPlaceholder | in.go:169-186 | No `?` remains in the output. |
| ExpandIn.RebindDollarCount | in.go:176-180 | The output has one `$` per original `$` and per `?`. |

## Left out

- Reflection (`reflect.TypeOf`, `CanInterface`, `Elem`, `Kind`) is replaced by the cases of `Value` and `Arg`. The `ConvertibleTo`/`Convert` loop (sqlparams.go:135-140) is not modelled: a value of a named type convertible to time, bool or `[]byte` must be given as that case. The `fmt.Sprint` fallback (sqlparams.go:141) is carried as the text `printed` of `Struct`, `StrMap` and `Other`.
- Float formatting `%.6f` (sqlparams.go:101-102) is floating-point numerics. A `Float` carries its rendered text.
- Time formatting with the `.999` layout is Go's calendar library. An instant carries its rendered text; only the zero-time branch is computed.
- `unicode.IsPrint` is written out for a byte read as a Latin-1 rune: 0x20-0x7E, and 0xA1-0xFF except 0xAD.
- `strings.ToLower` is modelled on ASCII letters only, because strings are byte sequences here.
- Concrete `driver.Valuer` and `fmt.Stringer` implementations are data: what `Value()` returns and what `String()` prints.
- The numbered and named renderers loop over the `vars` map calling `strings.Replace` (sqlparams.go:233-246). They are modelled as one pass that replaces each token cut out by the scanner with its literal. Go's map order is random. The `break` on a key of the other kind can never fire once some entry matches the style. The two can differ, and Go's result then depends on iteration order, in three cases: an encoded literal contains a `$n$` or `$:name$` token; a map key outside `[a-z0-9_]` matches literal `$:key$` text in the query; or the query's own `$`, `:` or digit text next to a token forms another token with the token's delimiting `$`. Examples of the last case are the named query `x:a:c$`, where `$:c$` forms across the end of `$:a$`, and the numbered query `$$1$`, where replacing `$1$` can create `$2$`. In these cases the model gives the result of replacing only the scanned tokens.
- Inline.Inline: a single nil argument, or a single nil pointer to a struct or map, makes the source panic when a placeholder style is detected. It is excluded by precondition in that case only.
- Inline: a `map[string]any` other than the plain one (any other value type) is not a separate case. The source's type assertion at sqlparams.go:214 panics for it.
- `In` with a pointer to a slice makes the source panic (`Len` on a pointer, in.go:45). A pointer is not a case of `Arg`, so `deref` (in.go:140-146) has no model.
- The stack-allocated `meta` array, `buf.Grow` and the `flatArgsCount` capacity (in.go:23-33, 66-69) only affect performance. `FlattenLength` states what `flatArgsCount` counts.
- AppendReflectSlice: the four type cases of `appendReflectSlice` (in.go:149-163) all append the elements in order. They are one loop here.
- Inline.Inline: the error a Valuer's `Value()` returns is ignored, as in the source, so the model carries only the produced value.
- ExpandIn.Arg, ExpandIn.PrepareArg: a `driver.Valuer` that is a typed nil pointer is not a case of `Arg`. `In` calls `Value()` on every Valuer without a nil check (in.go:36-38), which panics when `Value` has a value receiver. `Inline` does check for it (sqlparams.go:80), and its model has that case as `Encoder.Valuer(None)`.
- A concrete `Rebind` run, such as the four-placeholder example, is not stated. `RebindNumbersInOrder` gives the numbering for any query instead.
- Concrete `Inline` runs with mixed argument kinds are not stated. The general lemmas cover them: numbered with a list, named with a map, positional with a list, and the encodings.
