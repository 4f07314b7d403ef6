/** networking.c, inline requests: what the words of a line are, and that a client executes them. */
module InlineRequests {
  import opened Bytes
  import opened Resp
  import opened Requests
  import opened ReadSizes
  import opened Networking

  function Spaces(n: nat): (r: bytes)
    ensures |r| == n
  {
    seq(n, _ => 32)
  }

  /** Words, and the number of spaces in front of each and behind the last. */
  datatype Words = Words(words: Argv, gaps: seq<nat>)

  /** The words are not empty and hold no space, and there is a space between any two. */
  ghost predicate WordsOk(l: Words) {
    && |l.gaps| == |l.words| + 1
    && (forall i :: 0 <= i < |l.words| ==> l.words[i] != [] && 32 !in l.words[i])
    && forall i :: 0 < i < |l.words| ==> l.gaps[i] > 0
  }

  /** The line they make. */
  function Spaced(words: Argv, gaps: seq<nat>): bytes
    requires |gaps| == |words| + 1
  {
    if words == [] then Spaces(gaps[0])
    else Spaces(gaps[0]) + words[0] + Spaced(words[1..], gaps[1..])
  }

  // ---- the fields of a line

  lemma {:induction false} SpacesSkipped(n: nat, rest: bytes)
    ensures Fields(Spaces(n) + rest, []) == Fields(rest, [])
  {
    if n == 0 {
      assert Spaces(0) + rest == rest;
    } else {
      assert (Spaces(n) + rest)[1..] == Spaces(n - 1) + rest;
      SpacesSkipped(n - 1, rest);
    }
  }

  lemma {:induction false} WordTaken(word: bytes, field: bytes, rest: bytes)
    requires 32 !in word
    ensures Fields(word + rest, field) == Fields(rest, field + word)
  {
    if word == [] {
      assert word + rest == rest && field + word == field;
    } else {
      assert (word + rest)[1..] == word[1..] + rest && (word + rest)[0] == word[0];
      WordTaken(word[1..], field + [word[0]], rest);
      assert field + [word[0]] + word[1..] == field + word;
    }
  }

  /** A word ends at the end of the line or at a space. */
  lemma WordEnds(field: bytes, gap: nat, rest: bytes)
    requires field != [] && (gap > 0 || rest == [])
    ensures Fields(Spaces(gap) + rest, field) == [field] + Fields(Spaces(gap) + rest, [])
  {
    if gap > 0 {
      assert (Spaces(gap) + rest)[1..] == Spaces(gap - 1) + rest;
    } else {
      assert Spaces(gap) + rest == [];
    }
  }

  /** The fields of words with spaces between them, and any in front and behind, are these words, in order. */
  lemma {:induction false} FieldsOfWords(words: Argv, gaps: seq<nat>)
    requires WordsOk(Words(words, gaps))
    ensures Fields(Spaced(words, gaps), []) == words
  {
    if words == [] {
      SpacesSkipped(gaps[0], []);
      assert Spaces(gaps[0]) + [] == Spaces(gaps[0]);
    } else {
      var word, later := words[0], Spaced(words[1..], gaps[1..]);
      FieldsOfWords(words[1..], gaps[1..]);
      SpacesSkipped(gaps[0], word + later);
      ConcatAssoc(Spaces(gaps[0]), word, later);
      WordTaken(word, [], later);
      assert [] + word == word;
      LaterBegins(words[1..], gaps[1..], word);
      hide Fields, Spaced;
      assert [word] + words[1..] == words;
    }
  }

  lemma LaterBegins(words: Argv, gaps: seq<nat>, field: bytes)
    requires |gaps| == |words| + 1 && field != [] && (words != [] ==> gaps[0] > 0)
    ensures Fields(Spaced(words, gaps), field) == [field] + Fields(Spaced(words, gaps), [])
  {
    hide Fields;
    if words == [] {
      WordEnds(field, gaps[0], []);
      assert Spaces(gaps[0]) + [] == Spaces(gaps[0]);
    } else {
      var later := Spaced(words[1..], gaps[1..]);
      WordEnds(field, gaps[0], words[0] + later);
      ConcatAssoc(Spaces(gaps[0]), words[0], later);
    }
  }

  function WithoutSpaces(b: bytes): bytes {
    if b == [] then [] else (if b[0] == 32 then [] else [b[0]]) + WithoutSpaces(b[1..])
  }

  /** For any line: no field is empty or holds a space, and together they are the line without its spaces. */
  lemma {:induction false} FieldsOfLine(b: bytes, field: bytes)
    requires 32 !in field
    ensures var fs := Fields(b, field);
      && (forall i :: 0 <= i < |fs| ==> fs[i] != [] && 32 !in fs[i])
      && Concatenated(fs) == field + WithoutSpaces(b)
  {
    if b == [] {
      assert field != [] ==> Concatenated([field]) == field + Concatenated([]);
    } else if b[0] == 32 {
      FieldsOfLine(b[1..], []);
      var later := Fields(b[1..], []);
      assert ([field] + later)[1..] == later;
      assert [] + later == later;
    } else {
      FieldsOfLine(b[1..], field + [b[0]]);
      ConcatAssoc(field, [b[0]], WithoutSpaces(b[1..]));
    }
  }

  function Concatenated(fs: Argv): bytes {
    if fs == [] then [] else fs[0] + Concatenated(fs[1..])
  }

  // ---- lines as requests

  /** The line can be sent as a request: no byte of it is a NUL, a CR or an LF, and it does not begin as the
      other kind of request does. */
  ghost predicate Sendable(l: Words) {
    && WordsOk(l)
    && var line := Spaced(l.words, l.gaps);
    && (forall i :: 0 <= i < |line| ==> line[i] != 0 && line[i] != 13 && line[i] != 10)
    && (line != [] ==> line[0] != 42)
  }

  lemma {:induction false} FindCRLFIs(b: bytes, nl: nat)
    requires nl + 2 <= |b| && b[nl] == 13 && b[nl + 1] == 10
    requires forall i :: 0 <= i < nl ==> b[i] != 13 && b[i] != 0
    ensures FindCRLF(b) == Some(nl)
  {
    if nl > 0 { FindCRLFIs(b[1..], nl - 1); }
  }

  /** The line ends the piece that it is. */
  lemma LinePiece(line: bytes, rest: bytes)
    requires forall i :: 0 <= i < |line| ==> line[i] != 0 && line[i] != 13
    requires line != [] ==> line[0] != 42
    ensures var b := line + [13, 10] + rest;
      && Piece(Idle, b) == Take(0, Inline, []) && b[0..] == b
      && Piece(Inline, b) == Take(|line| + 2, Idle, Fields(line, [])) && b[|line| + 2..] == rest
  {
    var b := line + [13, 10] + rest;
    LineEnds(line, rest);
    hide FindCRLF, Fields;
    assert b[0..] == b;
  }

  lemma LineEnds(line: bytes, rest: bytes)
    requires forall i :: 0 <= i < |line| ==> line[i] != 0 && line[i] != 13
    ensures var b := line + [13, 10] + rest;
      && b != [] && b[0] == (if line == [] then 13 else line[0])
      && FindCRLF(b) == Some(|line|) && b[..|line|] == line && b[|line| + 2..] == rest
  {
    var b := line + [13, 10] + rest;
    assert forall i :: 0 <= i < |line| ==> b[i] == line[i];
    assert b[|line|] == 13 && b[|line| + 1] == 10;
    hide FindCRLF;
    FindCRLFIs(b, |line|);
  }

  /** A line of words is the command of these words. */
  lemma LineParses(l: Words, rest: bytes)
    requires Sendable(l)
    ensures Parse(Idle, Spaced(l.words, l.gaps) + [13, 10] + rest)
         == Then(if l.words == [] then [] else [l.words], Parse(Idle, rest))
  {
    var line := Spaced(l.words, l.gaps);
    var b := line + [13, 10] + rest;
    FieldsOfWords(l.words, l.gaps);
    LinePiece(line, rest);
    hide Parse, Piece, Fields, Spaced, Then;
    ParseTakes(Idle, b, 0, Inline, []);
    ParseTakes(Inline, b, |line| + 2, Idle, l.words);
    ThenThen([], [], Parse(Inline, b));
  }

  lemma LineTame(l: Words, rest: bytes)
    requires Sendable(l) && |Spaced(l.words, l.gaps)| + 2 <= INLINE_MAX_SIZE - IOBUF_LEN && Tame(Idle, rest)
    ensures Tame(Idle, Spaced(l.words, l.gaps) + [13, 10] + rest)
  {
    var line := Spaced(l.words, l.gaps);
    var b := line + [13, 10] + rest;
    LinePiece(line, rest);
    hide Piece, Fields, Spaced;
    assert Tame(Inline, b);
    TameTakes(Idle, b, 0, Inline, []);
  }

  /** Lines one after the other. */
  function Lines(ls: seq<Words>): bytes
    requires forall i :: 0 <= i < |ls| ==> |ls[i].gaps| == |ls[i].words| + 1
  {
    if ls == [] then [] else Spaced(ls[0].words, ls[0].gaps) + [13, 10] + Lines(ls[1..])
  }

  /** The commands they are: a line without words is none. */
  function CommandsOf(ls: seq<Words>): seq<Argv> {
    if ls == [] then [] else (if ls[0].words == [] then [] else [ls[0].words]) + CommandsOf(ls[1..])
  }

  /** No line is so long that a size check could fire. */
  ghost predicate AllSendable(ls: seq<Words>) {
    forall i :: 0 <= i < |ls| ==> Sendable(ls[i]) && |Spaced(ls[i].words, ls[i].gaps)| + 2 <= 48 * 1024
  }

  lemma {:induction false} LinesParse(ls: seq<Words>)
    requires AllSendable(ls)
    ensures Parse(Idle, Lines(ls)) == Result(Idle, [], CommandsOf(ls)) && Tame(Idle, Lines(ls))
  {
    if ls != [] {
      LinesParse(ls[1..]);
      LineParses(ls[0], Lines(ls[1..]));
      LineTame(ls[0], Lines(ls[1..]));
      hide Parse, Spaced, Tame, Sendable;
    }
  }

  /** A new client that reads the lines, in whatever amounts, executes exactly their commands, in order. */
  method ServeLines(stream: bytes, ghost ls: seq<Words>) returns (c: Client)
    requires AllSendable(ls) && stream == Lines(ls)
    ensures !c.tooBig && !c.freed && c.executed == CommandsOf(ls) && c.querybuf == [] && c.Now() == Idle
  {
    LinesParse(ls);
    hide AllSendable, Lines, CommandsOf, Parse, Tame;
    c := ServeStream(stream, MAX_QUERYBUF_LEN);
  }
}
