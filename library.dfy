/**
 * The library of opening lines kept by the application screen (App.jsx):
 * adding one line typed by the user, importing many lines from a text in
 * blocks, counting completions and errors, and loading a saved library with
 * repair of missing fields. The library is a value that every operation
 * replaces wholesale, as `setGames` does.
 */
module Library {
  import opened Wrappers
  import opened Text
  import opened Lexer

  /** One training line: the moves of both sides, and the side the learner plays. */
  datatype Opening = Opening(
    id: int,
    name: string,
    moves: seq<string>,
    color: string,
    completedCount: nat,
    errorCount: nat)

  predicate IsColorTag(c: string) {
    c == "white" || c == "black"
  }

  /** A line as it is when first created: moves present, a proper side, nothing counted yet. */
  predicate IsNewLine(g: Opening) {
    |g.moves| > 0 && IsColorTag(g.color) && g.completedCount == 0 && g.errorCount == 0
  }

  /** The label given to a line that has no name of its own. */
  function GameLabel(n: nat): string {
    "Game " + NatToString(n)
  }

  // ---------------------------------------------------------------------------
  // Adding a line by hand
  // ---------------------------------------------------------------------------

  /** The side chosen by the answer to "Which side should you play as?". */
  function PlayAs(answer: Option<string>): (side: string)
    ensures IsColorTag(side)
    ensures side == "black" <==> answer.Some? && ToLower(answer.value) == "black"
  {
    if answer.Some? && ToLower(answer.value) == "black" then "black" else "white"
  }

  /**
   * The library after the user pastes the text `raw` (None when the prompt is
   * cancelled) and answers `answer` for the side; `now` is the clock reading
   * that becomes the new line's id.
   */
  function AddGame(games: seq<Opening>, raw: Option<string>, answer: Option<string>, now: int)
    : (after: seq<Opening>)
    ensures |after| == |games| || |after| == |games| + 1
    ensures after[..|games|] == games
    ensures |after| == |games| <==> raw.None? || raw.value == "" || MoveTokens(raw.value) == []
    ensures |after| == |games| + 1 ==>
              var g := after[|games|];
              g.id == now && g.name == GameLabel(|games| + 1)
              && g.moves == MoveTokens(raw.value) && IsNewLine(g)
              && (g.color == "black" <==> answer.Some? && ToLower(answer.value) == "black")
  {
    if raw.None? || raw.value == "" then games
    else
      var moves := MoveTokens(raw.value);
      if |moves| == 0 then games
      else games + [Opening(now, GameLabel(|games| + 1), moves, PlayAs(answer), 0, 0)]
  }

  // ---------------------------------------------------------------------------
  // Importing lines in bulk
  // ---------------------------------------------------------------------------

  /** What `/^(.*)\((white|black)\)$/i` captures from a header line. */
  datatype Header = Header(title: string, tag: string)

  /** The header pattern matches `header` with `title` for `(.*)` and `tag` for `(white|black)`. */
  predicate MatchesHeader(header: string, title: string, tag: string) {
    header == title + "(" + tag + ")"
    && IsColorTag(ToLower(tag))
    && forall i :: 0 <= i < |title| ==> !IsLineTerminator(title[i])
  }

  function HeaderTag(header: string): (r: Option<Header>)
    ensures r.Some? ==> MatchesHeader(header, r.value.title, r.value.tag)
    ensures forall title, tag {:trigger MatchesHeader(header, title, tag)} ::
              MatchesHeader(header, title, tag) ==> r == Some(Header(title, tag))
  {
    var n := |header|;
    assert forall title, tag :: MatchesHeader(header, title, tag) ==>
      |tag| == 5 && title == header[..n - 7] && tag == header[n - 6..n - 1] by {
      forall title, tag | MatchesHeader(header, title, tag)
        ensures |tag| == 5 && title == header[..n - 7] && tag == header[n - 6..n - 1]
      {
        assert |ToLower(tag)| == |tag|;
      }
    }
    if n >= 7 && header[n - 7] == '(' && header[n - 1] == ')'
       && IsColorTag(ToLower(header[n - 6..n - 1]))
       && (forall i :: 0 <= i < n - 7 ==> !IsLineTerminator(header[i]))
    then
      assert header == header[..n - 7] + "(" + header[n - 6..n - 1] + ")";
      Some(Header(header[..n - 7], header[n - 6..n - 1]))
    else
      None
  }

  /** A line read from one block, before it is given an id. */
  datatype Draft = Draft(name: string, color: string, moves: seq<string>)

  /**
   * One block of the bulk text: a header line `<title> (white|black)` and the
   * move text on the lines after it. None when the block is skipped.
   */
  function ParseBlock(block: string): (r: Option<Draft>)
    ensures r.Some? ==> |r.value.moves| > 0 && IsColorTag(r.value.color)
  {
    var lines := Lines(Trim(block));
    if |lines| < 2 then None
    else match HeaderTag(Trim(lines[0]))
      case None => None
      case Some(h) =>
        var moves := MoveTokens(Join(" ", lines[1..]));
        if |moves| == 0 then None else Some(Draft(Trim(h.title), ToLower(h.tag), moves))
  }

  /**
   * A block is skipped when it has fewer than two lines, when its trimmed first
   * line does not end in the colour tag, or when the rest holds no move token;
   * otherwise its line is named by the trimmed title, plays the lower-cased
   * tag, and has the tokens of the remaining lines joined by blanks.
   */
  lemma ParseBlockCases(block: string)
    ensures var lines := Lines(Trim(block));
      && (|lines| < 2 ==> ParseBlock(block).None?)
      && (|lines| >= 2 && (forall title, tag :: !MatchesHeader(Trim(lines[0]), title, tag)) ==>
            ParseBlock(block).None?)
      && (forall title, tag :: |lines| >= 2 && MatchesHeader(Trim(lines[0]), title, tag) ==>
            var moves := MoveTokens(Join(" ", lines[1..]));
            && (moves == [] ==> ParseBlock(block).None?)
            && (moves != [] ==> ParseBlock(block) == Some(Draft(Trim(title), ToLower(tag), moves))))
  {
    var lines := Lines(Trim(block));
    if |lines| >= 2 {
      var header := Trim(lines[0]);
      match HeaderTag(header)
      case Some(h) =>
        assert MatchesHeader(header, h.title, h.tag);
      case None =>
    }
  }

  function Stamp(d: Draft, id: int): Opening {
    Opening(id, d.name, d.moves, d.color, 0, 0)
  }

  /** The blocks of a bulk text: the trimmed text cut at every blank line. */
  function BulkBlocks(text: string): seq<string> {
    Blocks(Trim(text))
  }

  /** Every draft a block yields has moves and a proper side. */
  predicate WellFormedDrafts(parsed: seq<Option<Draft>>) {
    forall j :: 0 <= j < |parsed| && parsed[j].Some? ==>
      |parsed[j].value.moves| > 0 && IsColorTag(parsed[j].value.color)
  }

  /** What each block yields, block by block. */
  function Parsed(blocks: seq<string>): (parsed: seq<Option<Draft>>)
    ensures |parsed| == |blocks| && WellFormedDrafts(parsed)
    decreases |blocks|
  {
    if |blocks| == 0 then []
    else Parsed(blocks[..|blocks| - 1]) + [ParseBlock(blocks[|blocks| - 1])]
  }

  lemma {:induction false} ParsedAt(blocks: seq<string>, j: nat)
    requires j < |blocks|
    ensures Parsed(blocks)[j] == ParseBlock(blocks[j])
    decreases |blocks|
  {
    if j < |blocks| - 1 {
      var init := blocks[..|blocks| - 1];
      ParsedAt(init, j);
      assert init[j] == blocks[j];
    }
  }

  /** The lines taken from `parsed`, numbered from `base` in the order they are taken. */
  function Imported(parsed: seq<Option<Draft>>, base: int): (r: seq<Opening>)
    requires WellFormedDrafts(parsed)
    ensures |r| <= |parsed|
    ensures forall k :: 0 <= k < |r| ==> r[k].id == base + k && IsNewLine(r[k])
    decreases |parsed|
  {
    if |parsed| == 0 then []
    else
      var prior := Imported(parsed[..|parsed| - 1], base);
      match parsed[|parsed| - 1]
      case None => prior
      case Some(d) => prior + [Stamp(d, base + |prior|)]
  }

  /** The indices of the blocks that yield a line, in increasing order. */
  function Kept(parsed: seq<Option<Draft>>): (r: seq<nat>)
    ensures forall k :: 0 <= k < |r| ==> r[k] < |parsed|
    ensures forall k, l :: 0 <= k < l < |r| ==> r[k] < r[l]
    decreases |parsed|
  {
    if |parsed| == 0 then []
    else
      var prior := Kept(parsed[..|parsed| - 1]);
      if parsed[|parsed| - 1].Some? then prior + [|parsed| - 1] else prior
  }

  /** One imported line per kept block. */
  lemma {:induction false} ImportedCount(parsed: seq<Option<Draft>>, base: int)
    requires WellFormedDrafts(parsed)
    ensures |Imported(parsed, base)| == |Kept(parsed)|
    decreases |parsed|
  {
    if |parsed| > 0 {
      var init := parsed[..|parsed| - 1];
      assert WellFormedDrafts(init);
      ImportedCount(init, base);
    }
  }

  /** The `k`-th imported line carries the draft of the `k`-th kept block. */
  lemma {:induction false} ImportedFromKept(parsed: seq<Option<Draft>>, base: int)
    requires WellFormedDrafts(parsed)
    ensures |Imported(parsed, base)| == |Kept(parsed)|
    ensures forall k :: 0 <= k < |Kept(parsed)| ==>
              var g := Imported(parsed, base)[k];
              parsed[Kept(parsed)[k]] == Some(Draft(g.name, g.color, g.moves))
    decreases |parsed|
  {
    ImportedCount(parsed, base);
    if |parsed| > 0 {
      var init := parsed[..|parsed| - 1];
      assert WellFormedDrafts(init);
      ImportedFromKept(init, base);
      assert forall j :: 0 <= j < |init| ==> init[j] == parsed[j];
    }
  }

  /** A block is kept exactly when it parses. */
  lemma {:induction false} KeptIffParses(parsed: seq<Option<Draft>>)
    ensures forall j :: 0 <= j < |parsed| ==> (parsed[j].Some? <==> j in Kept(parsed))
    decreases |parsed|
  {
    if |parsed| > 0 {
      var init := parsed[..|parsed| - 1];
      KeptIffParses(init);
      forall j | 0 <= j < |parsed|
        ensures parsed[j].Some? <==> j in Kept(parsed)
      {
        if j < |init| {
          assert init[j] == parsed[j];
          assert j in Kept(init) <==> j in Kept(parsed);
        }
      }
    }
  }

  /**
   * `parseBulkText`: the lines of a bulk text, numbered from `base`. Every
   * block is parsed, and the loop keeps the blocks that yield a line.
   */
  method ParseBulkText(text: string, base: int) returns (imported: seq<Opening>)
    ensures imported == Imported(Parsed(BulkBlocks(text)), base)
    ensures forall k :: 0 <= k < |imported| ==> imported[k].id == base + k && IsNewLine(imported[k])
  {
    var parsed := Parsed(BulkBlocks(text));
    imported := TakeParsed(parsed, base);
  }

  /** The loop of `parseBulkText` over what each block yields. */
  method TakeParsed(parsed: seq<Option<Draft>>, base: int) returns (imported: seq<Opening>)
    requires WellFormedDrafts(parsed)
    ensures imported == Imported(parsed, base)
  {
    imported := [];
    for i := 0 to |parsed|
      invariant WellFormedDrafts(parsed[..i])
      invariant imported == Imported(parsed[..i], base)
    {
      assert parsed[..i + 1] == parsed[..i] + [parsed[i]];
      ImportedSnoc(parsed[..i], parsed[i], base);
      match parsed[i] {
        case Some(draft) =>
          imported := imported + [Stamp(draft, base + |imported|)];
        case None =>
      }
    }
    assert parsed[..|parsed|] == parsed;
  }

  lemma ImportedSnoc(parsed: seq<Option<Draft>>, d: Option<Draft>, base: int)
    requires WellFormedDrafts(parsed + [d])
    ensures WellFormedDrafts(parsed)
    ensures d.None? ==> Imported(parsed + [d], base) == Imported(parsed, base)
    ensures d.Some? ==> Imported(parsed + [d], base) == Imported(parsed, base) + [Stamp(d.value, base + |Imported(parsed, base)|)]
  {
    WellFormedPrefix(parsed, d);
    var all := parsed + [d];
    assert all[..|all| - 1] == parsed;
    assert all[|all| - 1] == d;
  }

  lemma WellFormedPrefix(parsed: seq<Option<Draft>>, d: Option<Draft>)
    requires WellFormedDrafts(parsed + [d])
    ensures WellFormedDrafts(parsed)
  {
    var all := parsed + [d];
    forall j | 0 <= j < |parsed| && parsed[j].Some?
      ensures |parsed[j].value.moves| > 0 && IsColorTag(parsed[j].value.color)
    {
      assert all[j] == parsed[j];
    }
  }

  /** Lines from one bulk import have pairwise distinct ids. */
  lemma ImportedIdsDistinct(parsed: seq<Option<Draft>>, base: int)
    requires WellFormedDrafts(parsed)
    ensures forall k, l :: 0 <= k < l < |Imported(parsed, base)| ==>
              Imported(parsed, base)[k].id != Imported(parsed, base)[l].id
  {
  }

  /** The library after a bulk import of `raw` (None when the prompt is cancelled). */
  function BulkImport(games: seq<Opening>, raw: Option<string>, base: int): (after: seq<Opening>)
    ensures |after| >= |games| && after[..|games|] == games
    ensures raw.None? || raw.value == "" ==> after == games
    ensures raw.Some? && raw.value != "" ==> after[|games|..] == Imported(Parsed(BulkBlocks(raw.value)), base)
  {
    if raw.None? || raw.value == "" then games
    else games + Imported(Parsed(BulkBlocks(raw.value)), base)
  }

  // ---------------------------------------------------------------------------
  // Counting completions and errors
  // ---------------------------------------------------------------------------

  /** Everything but the two counters agrees. */
  predicate SameLine(a: Opening, b: Opening) {
    a.id == b.id && a.name == b.name && a.moves == b.moves && a.color == b.color
  }

  function Hit(g: Opening, id: int): nat {
    if g.id == id then 1 else 0
  }

  /** `handleComplete`: every line with id `id` gets one more completion; nothing else changes. */
  function RecordCompletion(games: seq<Opening>, id: int): (after: seq<Opening>)
    ensures |after| == |games|
    ensures forall i :: 0 <= i < |games| ==>
              SameLine(after[i], games[i]) && after[i].errorCount == games[i].errorCount
              && after[i].completedCount == games[i].completedCount + Hit(games[i], id)
  {
    seq(|games|, i requires 0 <= i < |games| =>
      if games[i].id == id then games[i].(completedCount := games[i].completedCount + 1)
      else games[i])
  }

  /** `handleError`: every line with id `id` gets one more error; nothing else changes. */
  function RecordError(games: seq<Opening>, id: int): (after: seq<Opening>)
    ensures |after| == |games|
    ensures forall i :: 0 <= i < |games| ==>
              SameLine(after[i], games[i]) && after[i].completedCount == games[i].completedCount
              && after[i].errorCount == games[i].errorCount + Hit(games[i], id)
  {
    seq(|games|, i requires 0 <= i < |games| =>
      if games[i].id == id then games[i].(errorCount := games[i].errorCount + 1)
      else games[i])
  }

  function Occurrences(games: seq<Opening>, id: int): nat {
    if |games| == 0 then 0 else Hit(games[0], id) + Occurrences(games[1..], id)
  }

  function TotalCompleted(games: seq<Opening>): nat {
    if |games| == 0 then 0 else games[0].completedCount + TotalCompleted(games[1..])
  }

  function TotalErrors(games: seq<Opening>): nat {
    if |games| == 0 then 0 else games[0].errorCount + TotalErrors(games[1..])
  }

  predicate DistinctIds(games: seq<Opening>) {
    forall i, j :: 0 <= i < j < |games| ==> games[i].id != games[j].id
  }

  /** With distinct ids, a present id occurs once and an absent one not at all. */
  lemma {:induction false} OccurrencesOfDistinct(games: seq<Opening>, id: int)
    requires DistinctIds(games)
    ensures Occurrences(games, id) == if exists i :: 0 <= i < |games| && games[i].id == id then 1 else 0
  {
    if |games| > 0 {
      var tail := games[1..];
      assert DistinctIds(tail) by {
        forall i, j | 0 <= i < j < |tail| ensures tail[i].id != tail[j].id {
          assert tail[i] == games[i + 1] && tail[j] == games[j + 1];
        }
      }
      OccurrencesOfDistinct(tail, id);
      if games[0].id == id {
        forall i | 0 <= i < |tail| ensures tail[i].id != id {
          assert tail[i] == games[i + 1];
        }
      } else {
        assert (exists i :: 0 <= i < |games| && games[i].id == id)
               <==> (exists i :: 0 <= i < |tail| && tail[i].id == id) by {
          forall i | 0 <= i < |tail| ensures tail[i] == games[i + 1] { }
          if exists i :: 0 <= i < |games| && games[i].id == id {
            var i :| 0 <= i < |games| && games[i].id == id;
            assert tail[i - 1].id == id;
          }
        }
      }
    }
  }

  /** A completion adds exactly one per line carrying the id to the library's total. */
  lemma {:induction false} RecordCompletionTotal(games: seq<Opening>, id: int)
    ensures TotalCompleted(RecordCompletion(games, id)) == TotalCompleted(games) + Occurrences(games, id)
    ensures TotalErrors(RecordCompletion(games, id)) == TotalErrors(games)
  {
    if |games| > 0 {
      var after := RecordCompletion(games, id);
      assert after[1..] == RecordCompletion(games[1..], id);
      RecordCompletionTotal(games[1..], id);
    }
  }

  /** An error adds exactly one per line carrying the id to the library's total. */
  lemma {:induction false} RecordErrorTotal(games: seq<Opening>, id: int)
    ensures TotalErrors(RecordError(games, id)) == TotalErrors(games) + Occurrences(games, id)
    ensures TotalCompleted(RecordError(games, id)) == TotalCompleted(games)
  {
    if |games| > 0 {
      var after := RecordError(games, id);
      assert after[1..] == RecordError(games[1..], id);
      RecordErrorTotal(games[1..], id);
    }
  }

  // ---------------------------------------------------------------------------
  // Saving and loading
  // ---------------------------------------------------------------------------

  /** One element of a loaded array, its absent fields (undefined or null) as None. */
  datatype RawRecord = RawRecord(
    id: Option<int>,
    name: Option<string>,
    moves: Option<seq<string>>,
    color: Option<string>,
    completedCount: Option<nat>,
    errorCount: Option<nat>)

  /**
   * An element of the loaded array: `null`, on which reading a field throws,
   * or any other value, whose fields are read as they are (a number or a string
   * has none of them).
   */
  datatype Element = Null | Value(fields: RawRecord)

  /** The value of a parsed library file. */
  datatype Document = Array(elements: seq<Element>) | NotArray

  datatype LoadResult = Loaded(games: seq<Opening>) | InvalidFormat | LoadFailed

  /** The `i`-th record of a load, its missing fields replaced by defaults. */
  function Repair(r: RawRecord, i: nat, base: int): (g: Opening)
    ensures g.id == (if r.id.Some? then r.id.value else base + i)
    ensures g.name == (if r.name.Some? then r.name.value else GameLabel(i + 1))
    ensures g.moves == (if r.moves.Some? then r.moves.value else [])
    ensures g.color == (if r.color.Some? then r.color.value else "white")
    ensures g.completedCount == (if r.completedCount.Some? then r.completedCount.value else 0)
    ensures g.errorCount == (if r.errorCount.Some? then r.errorCount.value else 0)
  {
    Opening(r.id.GetOr(base + i), r.name.GetOr(GameLabel(i + 1)), r.moves.GetOr([]),
            r.color.GetOr("white"), r.completedCount.GetOr(0), r.errorCount.GetOr(0))
  }

  /**
   * The load step of `handleLoadLibrary`, on the already parsed file: a
   * non-array is refused, a `null` element makes the field read throw, and
   * otherwise every element is repaired in place; `base` is the clock reading.
   */
  function LoadLibrary(doc: Document, base: int): (res: LoadResult)
    ensures res == InvalidFormat <==> doc.NotArray?
    ensures res == LoadFailed <==> doc.Array? && exists i :: 0 <= i < |doc.elements| && doc.elements[i].Null?
    ensures res.Loaded? ==> |res.games| == |doc.elements|
    ensures res.Loaded? ==> forall i :: 0 <= i < |doc.elements| ==>
              doc.elements[i].Value? && res.games[i] == Repair(doc.elements[i].fields, i, base)
  {
    match doc
    case NotArray => InvalidFormat
    case Array(elems) =>
      if exists i :: 0 <= i < |elems| && elems[i].Null? then LoadFailed
      else Loaded(seq(|elems|, i requires 0 <= i < |elems| => Repair(elems[i].fields, i, base)))
  }

  /** The library once a load has finished: replaced on success, untouched on failure. */
  function LibraryAfterLoad(current: seq<Opening>, doc: Document, base: int): (after: seq<Opening>)
    ensures doc.NotArray? ==> after == current
    ensures LoadLibrary(doc, base) == LoadFailed ==> after == current
    ensures doc.Array? && LoadLibrary(doc, base) != LoadFailed ==> |after| == |doc.elements|
    ensures LoadLibrary(doc, base).Loaded? ==> after == LoadLibrary(doc, base).games
  {
    match LoadLibrary(doc, base)
    case Loaded(games) => games
    case _ => current
  }

  /** What `handleSaveLibrary` writes, field by field, read back as a document. */
  function Export(games: seq<Opening>): (doc: Document)
    ensures doc.Array? && |doc.elements| == |games|
  {
    Array(seq(|games|, i requires 0 <= i < |games| =>
      var g := games[i];
      Value(RawRecord(Some(g.id), Some(g.name), Some(g.moves), Some(g.color),
                      Some(g.completedCount), Some(g.errorCount)))))
  }

  /** Saving a library and loading the file again gives back the same library. */
  lemma SaveLoadRoundTrip(games: seq<Opening>, base: int)
    ensures LoadLibrary(Export(games), base) == Loaded(games)
  {
    var doc := Export(games);
    assert forall i :: 0 <= i < |games| ==> Repair(doc.elements[i].fields, i, base) == games[i];
  }

  /** Ids the load makes up for records that have none are distinct from one another. */
  lemma SynthesizedIdsDistinct(doc: Document, base: int, i: nat, j: nat)
    requires LoadLibrary(doc, base).Loaded? && i < j < |doc.elements|
    requires doc.elements[i].fields.id.None? && doc.elements[j].fields.id.None?
    ensures LoadLibrary(doc, base).games[i].id != LoadLibrary(doc, base).games[j].id
  {
  }
}
