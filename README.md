# Chess study trainer: the session engine in Dafny

This project models the core of an opening-drill trainer whose two screens are
`App.jsx` (the library of opening lines) and `src/components/TrainerBoard.jsx`
(the drill board). The model proves properties of each part:

- **Move-token extraction** (`Lexer`). Three of the four regular expressions
  of the library screen are modelled here: the move-token pattern, the
  blank-line separator and the line break. So are the two ways they are
  applied, a global `match` and a `split`. The fourth, the header pattern of
  a bulk block, is modelled by `Library.HeaderTag`. A pattern is described by the infixes it admits at a
  position. A match is the longest admissible infix. A global search takes
  the leftmost match, resumes after it, and leaves no match start uncovered
  in the gaps.
- **The library** (`Library`):
  - adding one line typed by the user;
  - bulk import of blocks of the form `Title (white|black)` followed by move
    lines;
  - the completion and error counters, keyed by id;
  - loading a saved library, with repair of missing fields.

  The library is a value that each operation replaces, as `setGames` does.
- **Weighted selection** (`Selection`). `pickWeightedRandom` is a method with
  the source's running-sum loop, over exact reals. The `Math.random()` value
  is a parameter. It is proved against the "first running sum reaching the
  draw" specification, with the last-line fallback as a branch.
- **The drill session** (`Trainer`):
  - a class with `moveIndex`, the engine's move list and the displayed
    history;
  - set-up and `restart` skip loops;
  - `normalizeSan`;
  - `onDrop`, which takes the engine's answer as an input (None = illegal,
    Some(san) = legal);
  - `formatMoveHistory` as a loop method.
- **Wiring** (`App`). The board's `onComplete`/`onError` callbacks feed the
  counter updates.

`Date.now()` is the parameter `now` or `base`. The chess engine is an oracle
whose answer to a drop is the input. The engine is assumed to accept the
opponent's plies, and it records them as the line's own tokens.

In these places the model follows the code as written:

- A line with no ply for the learner ends set-up at `moves.length` without
  firing `onComplete`.
- A `null` element in a loaded array makes the field read throw. The whole
  load then fails ("Failed to load file") and the library is unchanged. No
  single record is repaired in its place.
- Ids made up at load time (`Date.now() + i`) are distinct from one another.
  They are not checked against ids already present in the file.
- A record loaded without `moves` becomes a line with no moves.
- A legal drop after the line is over compares against `moves[moveIndex]`,
  which is `undefined`. `normalizeSan(undefined)` throws, after the engine has
  already played the move. The model reports this as the `Fault` signal: the
  engine's list grows, nothing else changes, and no callback fires.

## Model

| member | source | states |
|---|---|---|
| Lexer.LongestUpTo | App.jsx:19-20 | the result is the largest admissible end not beyond `e`, and no larger end up to `e` is admissible; None when none is |
| Lexer.MatchAt | App.jsx:19-20 | the match tried at `p` ends after `p` within the text and is the longest admissible infix there |
| Lexer.MatchTable | App.jsx:21 | the table has one entry per position, each entry is the match at that position, and each match ends inside the text |
| Lexer.Scan | App.jsx:21 | the global search from `p`: every span is the match made at its start, spans are ordered and disjoint, and no match starts in any gap before, between or after them |
| Lexer.Matches | App.jsx:21 | the spans a global search of the whole text finds, characterised as in Scan |
| Lexer.MatchAll | App.jsx:21 | `match` with the g flag: one string per found span, in order, each the text of its span |
| Lexer.SplitAll | App.jsx:44 | `split`: one more piece than there are matches; piece k is the text between match k-1 and match k |
| Lexer.MoveTokens | App.jsx:19-21 | every extracted token (also the duplicate at App.jsx:61-63) is in the move grammar: castling, or piece? file? rank? x? square (=QRBN)? |
| Lexer.LinesHaveNoBreak | App.jsx:48 | no piece of `split(/\n/)` holds a line break |
| Lexer.BlocksHaveNoBlankLine | App.jsx:44 | no block of `split(/\n\s*\n/)` holds a line break, blanks, line break: the split cut at every blank line |
| Lexer.Lines | App.jsx:48 | `split(/\n/)`: the pieces between the line breaks; LinesHaveNoBreak and LinesJoinBack state what they are |
| Lexer.Blocks | App.jsx:44 | `split(/\n\s*\n/)`: the pieces between the blank-line gaps; BlocksHaveNoBlankLine states what they hold |
| Lexer.LineBreakSpans | App.jsx:48 | every match of `/\n/` is one character long and is a line break |
| Lexer.JoinGapsFrom | App.jsx:48 | joining the pieces from the k-th on with `\n` rebuilds the text from where piece k starts |
| Lexer.LinesJoinBack | App.jsx:48 | `s.split(/\n/).join("\n")` is `s`: splitting at line breaks loses no character |
| Text.Trim | App.jsx:44 | `trim()` gives a string no longer than its input |
| Text.TrimIsTrimmed | App.jsx:44 | what `trim()` leaves starts and ends in a non-space |
| Text.TrimIsInfix | App.jsx:44 | what `trim()` keeps is the infix after the leading white space; what it drops at both ends is white space |
| Text.TrimOfTrimmed | App.jsx:56 | trimming a trimmed string changes nothing |
| Text.TrimTrailingBlank | src/components/TrainerBoard.jsx:93 | trimming drops the single blank a missing black ply leaves after a trimmed word |
| Text.SkipSpaceStops | App.jsx:44 | the leading scan stops at the first non-space and passes only white space |
| Text.BackSpaceStops | App.jsx:44 | the trailing scan stops after the last non-space and passes only white space |
| Text.LowerChar | App.jsx:17 | a lower-cased character is not a capital and is white space exactly when the original was |
| Text.ToLower | App.jsx:57 | `toLowerCase()` keeps the length and lower-cases character by character |
| Text.ToLowerOfLower | App.jsx:57 | lower-casing a string without capitals changes nothing |
| Text.NatToString | App.jsx:30 | the numeral of a template literal is never empty |
| Text.NatToStringValue | App.jsx:30 | the numeral consists of decimal digits only and denotes the number rendered |
| Text.Join | App.jsx:60 | `join(sep)`: "" for no parts, the part itself for one, and otherwise the first part, `sep`, and the join of the rest; JoinLength states its length |
| Text.JoinLength | src/components/TrainerBoard.jsx:95 | the joined string holds every part once and one `sep` between neighbours: its length is the parts' total plus (n-1) separators |
| Text.TrimKeepsFirst | src/components/TrainerBoard.jsx:93 | a string starting with a non-space keeps its first character through `trim()`, so the result is not empty |
| Library.AddGame | App.jsx:12-39 | nothing is added when the paste is cancelled or empty, or when it holds no token. Otherwise exactly one line is appended and the old ones are kept. It has id `now`, name `Game n+1`, the extracted tokens, zero counters, and colour "black" iff the answer lower-cases to "black" |
| Library.GameLabel | App.jsx:30 | the default name `Game ${n}`, also used for a loaded record without a name (App.jsx:186) |
| Library.HeaderTag | App.jsx:52-54 | a header matches `/^(.*)\((white|black)\)$/i` iff it is a title without line terminators, then "(", a tag that lower-cases to white or black, then ")"; that decomposition is unique |
| Library.PlayAs | App.jsx:16-17 | the side is always white or black, and black exactly when the answer lower-cases to "black" (a cancelled prompt gives white) |
| Library.ParseBlock | App.jsx:48-73 | a kept block yields a line with moves and a proper colour |
| Library.ParseBlockCases | App.jsx:48-64 | a block is skipped when it has fewer than two lines, when its trimmed first line matches no reading of the header pattern, or when the rest holds no token. Otherwise, for the title and tag the pattern captures, the draft is named by the trimmed title, plays the lower-cased tag and has the tokens of the remaining lines joined by blanks |
| Library.Parsed | App.jsx:47 | what each block yields, one entry per block, every draft well formed |
| Library.ParsedAt | App.jsx:47 | entry j is what block j yields |
| Library.BulkBlocks | App.jsx:44 | `text.trim().split(/\n\s*\n/)`: the blocks of the trimmed text, as Lexer.Blocks cuts them |
| Library.Stamp | App.jsx:66-73 | the record pushed for a draft: the given id, the draft's name, moves and colour, and zero counters |
| Library.Imported | App.jsx:66-73 | the k-th kept line has id `base + k`, non-empty moves, a colour in {white, black} and zero counters |
| Library.Kept | App.jsx:49-64 | the indices of the blocks kept are in range and strictly increasing |
| Library.ImportedCount | App.jsx:47-74 | one imported line per block that parses |
| Library.ImportedFromKept | App.jsx:47-74 | the k-th imported line carries the name, colour and moves of the k-th block that parses |
| Library.KeptIffParses | App.jsx:47-63 | a block is among the kept ones if and only if it parses |
| Library.ImportedSnoc | App.jsx:64-73 | one more block appends the block's line, numbered by the count so far, when it parses, and nothing otherwise |
| Library.ImportedIdsDistinct | App.jsx:67 | the ids of one bulk batch are pairwise distinct |
| Library.TakeParsed | App.jsx:45-74 | the import loop pushes exactly the lines of Imported |
| Library.ParseBulkText | App.jsx:42-77 | `parseBulkText` returns the imported lines of the trimmed text's blocks, numbered `base + k`, all new lines |
| Library.BulkImport | App.jsx:79-91 | a cancelled or empty paste leaves the library alone; otherwise the imported lines are appended after the old ones |
| Library.RecordCompletion | App.jsx:141-148 | length and order are kept. Each line keeps its id, name, moves, colour and errors. Its completions grow by one exactly when its id matches |
| Library.RecordError | App.jsx:154-162 | length and order are kept. Each line keeps its id, name, moves, colour and completions. Its errors grow by one exactly when its id matches |
| Library.RecordCompletionTotal | App.jsx:141-148 | the library's completions grow by the number of lines with the id; its errors do not change |
| Library.RecordErrorTotal | App.jsx:154-162 | the library's errors grow by the number of lines with the id; its completions do not change |
| Library.OccurrencesOfDistinct | App.jsx:144 | with distinct ids, an id occurs once if present and not at all otherwise |
| Library.Repair | App.jsx:184-191 | each present field is kept. Missing fields default to id `base+i`, name `Game i+1`, moves [], colour white and zero counters |
| Library.LoadLibrary | App.jsx:181-197 | a non-array is refused; a `null` element fails the load; otherwise there is one repaired record per element, in order |
| Library.LibraryAfterLoad | App.jsx:183-197 | a refused or failed load leaves the library unchanged; a good one replaces it by the repaired records, one per array element |
| Library.Export | App.jsx:165-166 | the saved document is an array with one record per line |
| Library.SaveLoadRoundTrip | App.jsx:165-191 | loading what was saved gives back the same library: repairing a fully populated record is the identity |
| Library.SynthesizedIdsDistinct | App.jsx:185 | ids made up for two records without one are different |
| Selection.Weight | App.jsx:115-119 | every weight is strictly positive |
| Selection.WeightFallsWithCompletions | App.jsx:117 | one more completion makes the weight strictly smaller |
| Selection.WeightGrowsWithErrors | App.jsx:118 | one more error makes the weight strictly larger |
| Selection.FreshWeight | App.jsx:117-119 | a line with no completions and no errors weighs 1 |
| Selection.Weights | App.jsx:114-120 | one strictly positive weight per line |
| Selection.RunningSum | App.jsx:125-127 | `sum` after the first n rounds of the loop: the weights added from the left, starting at 0 |
| Selection.Total | App.jsx:122 | `weights.reduce((a, b) => a + b, 0)`: the running sum over all the weights |
| Selection.Target | App.jsx:123 | `Math.random() * total`, with the random value as the parameter `draw` |
| Selection.FirstReachingUnique | App.jsx:126-129 | the walk can stop at one index only |
| Selection.RunningSumIncreases | App.jsx:127 | with positive weights the running sums strictly increase |
| Selection.FirstReachingInterval | App.jsx:123-129 | with positive weights the walk stops at i iff the draw lies in (sum before i, sum through i]; line i owns a slice as wide as its weight |
| Selection.SomeIndexReaches | App.jsx:126-129 | a draw not above the total stops the walk at some line |
| Selection.PickWeightedRandom | App.jsx:111-131 | null iff the library is empty. The result is an element of the library. It is the first line whose running sum reaches `draw * total`, or the last line when no running sum does |
| Selection.DrawAlwaysLands | App.jsx:122-130 | for a draw in [0, 1) the walk always stops at a line, so the fallback is never needed in exact arithmetic |
| Selection.FreshLibraryIsUniform | App.jsx:114-122 | when no line has been completed or missed, the n-th running sum is n: every line has the same slice |
| Trainer.StripMarks | src/components/TrainerBoard.jsx:51 | the result has no `+` and no `#` |
| Trainer.NormalizeSan | src/components/TrainerBoard.jsx:50-52 | marks removed, then trimmed, then lower-cased; NormalizeSanIsNormal and NormalizeSanIdempotent state what it yields |
| Trainer.StripMarksOfUnmarked | src/components/TrainerBoard.jsx:51 | removing marks from a string without them changes nothing |
| Trainer.NormalizeSanIsNormal | src/components/TrainerBoard.jsx:50-52 | a normalised move has no `+`/`#`, is trimmed and has no capitals |
| Trainer.NormalizeSanIdempotent | src/components/TrainerBoard.jsx:50-52 | normalising twice is normalising once |
| Trainer.SideAt | src/components/TrainerBoard.jsx:11 | even plies are White's, odd plies Black's |
| Trainer.SidesAlternate | src/components/TrainerBoard.jsx:11 | the sides take turns: ply i+1 belongs to the other side, ply i+2 to the same one |
| Trainer.PlayerSide | src/components/TrainerBoard.jsx:19 | the learner plays White exactly when the colour is "white", Black for any other colour |
| Trainer.NextPlayerPly | src/components/TrainerBoard.jsx:21-24 | the skip loop from `start` stops at the least index from `start` on that is the player's ply, or at the end of the line. `sideAt` is White for even plies and Black for odd ones |
| Trainer.SetupIndex | src/components/TrainerBoard.jsx:19-26 | set-up stops at 0 for White, and at min(1, length) for Black |
| Trainer.NextAfterPly | src/components/TrainerBoard.jsx:72-77 | after the learner's ply m the next stop is min(m+2, length): the index strictly increases |
| Trainer.AdvancePastOpponent | src/components/TrainerBoard.jsx:20-24 | the loop stops at NextPlayerPly and has played exactly the line's plies from `start` up to there |
| Trainer.PrefixAgrees | src/components/TrainerBoard.jsx:26-28 | the history set-up and restart show, the line's first plies, agrees with the line; the constructor and Restart use it for their agreement clause |
| Trainer.AgreementExtends | src/components/TrainerBoard.jsx:64-81 | after a matching drop the shown history still agrees, move by move and normalised, with the line; Drop uses it for its agreement clause |
| Trainer.Session.constructor | src/components/TrainerBoard.jsx:14-29 | set-up: the shown history agrees with the line; the index is NextPlayerPly from 0, the engine and the shown history hold the line up to it, and the session invariant holds |
| Trainer.Session.StartIndex | src/components/TrainerBoard.jsx:19-26 | the index set-up and restart stop at: NextPlayerPly from 0 for the learner's side |
| Trainer.Session.Restart | src/components/TrainerBoard.jsx:32-47 | restart gives the same index and lists as set-up, and the shown history agrees with the line |
| Trainer.Session.Drop | src/components/TrainerBoard.jsx:55-84 | a shown history that agreed with the line still agrees after any drop. illegal: false, no callback, nothing changes. Legal after the end: Fault, only the engine list grows. Mismatch: false and onError once, set-up state. Match: true, index = NextPlayerPly(old+1) > old, history = old + [san] + opponent plies, onComplete iff the index reaches the end |
| Trainer.SegmentsUpTo | src/components/TrainerBoard.jsx:89-93 | after n rounds the loop has collected exactly n segments |
| Trainer.SegmentsUpToAt | src/components/TrainerBoard.jsx:89-93 | round k of the loop contributes the k-th numbered pair and later rounds do not change it |
| Trainer.Segments | src/components/TrainerBoard.jsx:89-93 | one segment per two plies, rounded up |
| Trainer.SegmentsAt | src/components/TrainerBoard.jsx:89-93 | ceil(n/2) segments; segment k is `k+1. white black` trimmed, a missing ply being "" |
| Trainer.Ply | src/components/TrainerBoard.jsx:91-92 | `moves[i] \|\| ""`: the ply, or "" past the end of the line |
| Trainer.Segment | src/components/TrainerBoard.jsx:90-93 | a numbered pair is never empty and starts with a digit of its number |
| Trainer.FormatPair | src/components/TrainerBoard.jsx:90-93 | the round at ply i = 2k builds the k-th numbered pair |
| Trainer.FormatMoveHistory | src/components/TrainerBoard.jsx:87-96 | the result is the segments joined by single blanks |
| Trainer.EmptyHistory | src/components/TrainerBoard.jsx:87-96 | an empty move list gives "" |
| Trainer.SegmentShape | src/components/TrainerBoard.jsx:90-93 | with trimmed non-empty plies, a full pair shows as `k+1. white black` and a lone last ply as `k+1. white` |
| App.AfterSignal | App.jsx:238-239 | onComplete turns the library into RecordCompletion of it for the id, onError into RecordError; a quiet or faulting drop leaves it unchanged. Over the whole library, onComplete adds one completion per line carrying the id and onError one error; the other total stays |
| App.SignalCountsOnce | App.jsx:141-162 | with distinct ids, a signal about a line moves the matching total by exactly one |

## Left out

- The chess engine (chess.js) is an oracle. It checks legality, generates SAN, and gives the FEN and `history()`. The model does not check legality or generate SAN. The engine's list of opponent plies is the line's own tokens.
- react-chessboard, the JSX of both screens, `alert`, the session key and the success/failure messages are left out as display.
- Browser input and output is left out: `prompt`, `FileReader`, `Blob`/URL downloads and `JSON.parse`. Manual add and bulk import take the prompt's answer as an `Option<string>`. Loading takes the already parsed document.
- `handleBulkFile` (App.jsx:93-108) is not modelled apart. It runs the same `parseBulkText` on the file text and appends the result.
- `Date.now()` and `Math.random()` are parameters. Every `Date.now()` call of one `parseBulkText` run is one reading `base`, and so is every `Date.now() + i` of one load (App.jsx:185): the model takes all of them at the same instant. The claim that ids made up at load time are distinct from one another rests on that reading.
- Selection.PickWeightedRandom: computes over exact reals. It does not model IEEE rounding in the weights, in the sum or in `0.2`. In floating point the last-line fallback can fire; in exact arithmetic it cannot.
- Library.Repair: a present field is taken to have its JSON type: `id` an integer, `name` and `color` strings, `moves` a list of strings, counters natural numbers. The source keeps a present field of any type (App.jsx:185-188). `Number()` coercion of strings, negative or fractional counts and non-numeric values are left out.
- Text.ToLower: lower-cases ASCII letters only. Full Unicode case mapping is left out, both for `toLowerCase` and for the `/i` flag of the header pattern. The same holds for `\w`, and so for `\b`, which uses the ASCII word characters as JavaScript does.
- Lexer.MatchAt: takes the longest admissible match. This coincides with the backtracking matcher for these three patterns (see the comment in lexer.dfy); the model does not mimic general regex backtracking.
- React state timing is left out. This covers the stale `games` that `handleComplete` and `startNextGame` read after `setGames`, `useEffect` re-runs, and the selection of the next line that `handleComplete` starts (it is PickWeightedRandom again).
- Trainer.Session.Drop: a thrown `normalizeSan(undefined)` is modelled as the Fault signal with `accepted` false. The event handler's actual return value after the throw is left out.

