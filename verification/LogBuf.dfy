/** The log ring buffer and its line splitter (src/logbuf.rs). */
module LogBuf {
  import opened Common

  type Bytes = seq<byte>

  const NEWLINE: byte := 10
  const RETURN: byte := 13
  const CAP := 500

  // -------------------------------------------------------------------- lines

  /** `trim_end_matches(['\n', '\r'])` */
  function TrimEnd(line: Bytes): (r: Bytes)
    ensures |r| <= |line| && r == line[..|r|]
    ensures r == [] || (r[|r| - 1] != NEWLINE && r[|r| - 1] != RETURN)
    ensures forall i :: |r| <= i < |line| ==> line[i] == NEWLINE || line[i] == RETURN
  {
    if line != [] && (line[|line| - 1] == NEWLINE || line[|line| - 1] == RETURN)
    then TrimEnd(line[..|line| - 1])
    else line
  }

  /** Position of the first newline, or |s|. */
  function FirstNewline(s: Bytes): (k: nat)
    ensures k <= |s| && NEWLINE !in s[..k]
    ensures k < |s| ==> s[k] == NEWLINE
  {
    if s == [] || s[0] == NEWLINE then 0 else 1 + FirstNewline(s[1..])
  }

  predicate HasLine(s: Bytes) { FirstNewline(s) < |s| }

  /** The first line, with its newline. */
  function FirstLine(s: Bytes): Bytes
    requires HasLine(s)
  {
    s[..FirstNewline(s) + 1]
  }

  function AfterLine(s: Bytes): (r: Bytes)
    requires HasLine(s)
    ensures |r| < |s|
  {
    s[FirstNewline(s) + 1..]
  }

  /** The complete lines of a stream, each with its newline. */
  function Lines(s: Bytes): seq<Bytes>
    decreases |s|
  {
    if HasLine(s) then [FirstLine(s)] + Lines(AfterLine(s)) else []
  }

  /** What follows the last newline. */
  function Rest(s: Bytes): Bytes
    decreases |s|
  {
    if HasLine(s) then Rest(AfterLine(s)) else s
  }

  lemma {:induction false} RestIsUnfinished(s: Bytes)
    ensures NEWLINE !in Rest(s)
    decreases |s|
  {
    if HasLine(s) {
      RestIsUnfinished(AfterLine(s));
    } else {
      FirstNewlineNone(s);
    }
  }

  function Flatten(lines: seq<Bytes>): Bytes { if lines == [] then [] else lines[0] + Flatten(lines[1..]) }

  /** Splitting loses nothing: the lines and the rest, put together, are the stream. */
  lemma {:induction false} LinesCoverStream(s: Bytes)
    ensures Flatten(Lines(s)) + Rest(s) == s
    decreases |s|
  {
    if HasLine(s) {
      LinesCoverStream(AfterLine(s));
      PutLineBack(FirstLine(s), Lines(AfterLine(s)), Rest(AfterLine(s)));
      assert s == FirstLine(s) + AfterLine(s);
    }
  }

  /** Every line ends with its only newline. */
  lemma {:induction false} LinesEndOnce(s: Bytes, i: nat)
    requires i < |Lines(s)|
    ensures Lines(s)[i] != [] && FirstNewline(Lines(s)[i]) == |Lines(s)[i]| - 1
    decreases |s|
  {
    if i == 0 {
      FirstNewlineTake(s);
    } else {
      LinesEndOnce(AfterLine(s), i - 1);
    }
  }

  lemma PutLineBack(line: Bytes, lines: seq<Bytes>, rest: Bytes)
    ensures Flatten([line] + lines) + rest == line + (Flatten(lines) + rest)
  {
    assert ([line] + lines)[1..] == lines;
  }

  /** It depends on nothing behind it. */
  lemma {:induction false} FirstNewlineAppend(a: Bytes, b: Bytes)
    ensures FirstNewline(a) < |a| ==> FirstNewline(a + b) == FirstNewline(a)
    ensures FirstNewline(a) == |a| ==> FirstNewline(a + b) == |a| + FirstNewline(b)
  {
    if a == [] {
      assert a + b == b;
    } else {
      assert (a + b)[1..] == a[1..] + b;
      FirstNewlineAppend(a[1..], b);
    }
  }

  lemma {:induction false} FirstNewlineTake(s: Bytes)
    requires FirstNewline(s) < |s|
    ensures FirstNewline(s[..FirstNewline(s) + 1]) == FirstNewline(s)
  {
    if s[0] != NEWLINE {
      FirstNewlineTake(s[1..]);
      assert s[..FirstNewline(s) + 1][1..] == s[1..][..FirstNewline(s[1..]) + 1];
    }
  }

  lemma {:induction false} FirstNewlineNone(s: Bytes)
    ensures FirstNewline(s) == |s| <==> NEWLINE !in s
  {
    if s != [] {
      FirstNewlineNone(s[1..]);
    }
  }

  /** `done` lines are split off, `s` is still to be split. */
  ghost predicate SplitSoFar(all: seq<Bytes>, rest: Bytes, done: seq<Bytes>, s: Bytes) {
    all == done + Lines(s) && rest == Rest(s)
  }

  lemma SplitGoesOn(all: seq<Bytes>, rest: Bytes, done: seq<Bytes>, s: Bytes)
    requires SplitSoFar(all, rest, done, s) && HasLine(s)
    ensures SplitSoFar(all, rest, done + [FirstLine(s)], AfterLine(s))
  {
  }

  /** Splitting in two goes: the rest of the first part is carried over to the second. */
  lemma {:induction false} SplitInTwo(a: Bytes, b: Bytes)
    ensures Lines(a + b) == Lines(a) + Lines(Rest(a) + b)
    ensures Rest(a + b) == Rest(Rest(a) + b)
    decreases |a|
  {
    if HasLine(a) {
      FirstNewlineAppend(a, b);
      assert FirstLine(a + b) == FirstLine(a);
      assert AfterLine(a + b) == AfterLine(a) + b;
      SplitInTwo(AfterLine(a), b);
    }
  }

  // --------------------------------------------------------------------- ring

  /** The retained text of a raw line: none if it is not UTF-8 or empty once trimmed. */
  function Kept(line: Bytes, utf8: Bytes -> bool): seq<Bytes> {
    if utf8(line) && TrimEnd(line) != [] then [TrimEnd(line)] else []
  }

  function KeptAll(lines: seq<Bytes>, utf8: Bytes -> bool): seq<Bytes> {
    if lines == [] then [] else Kept(lines[0], utf8) + KeptAll(lines[1..], utf8)
  }

  lemma {:induction false} KeptAppend(a: seq<Bytes>, b: seq<Bytes>, utf8: Bytes -> bool)
    ensures KeptAll(a + b, utf8) == KeptAll(a, utf8) + KeptAll(b, utf8)
  {
    if a == [] {
      assert a + b == b;
    } else {
      assert (a + b)[1..] == a[1..] + b;
      KeptAppend(a[1..], b, utf8);
    }
  }

  lemma KeepOne(history: seq<Bytes>, done: seq<Bytes>, line: Bytes, utf8: Bytes -> bool)
    ensures history + KeptAll(done + [line], utf8) == history + KeptAll(done, utf8) + Kept(line, utf8)
  {
    KeptAppend(done, [line], utf8);
    assert KeptAll([line], utf8) == Kept(line, utf8) + KeptAll([], utf8);
  }

  /**
   `texts` are the lines at the positions `picked`, in order and trimmed: exactly those that are valid UTF-8
   and hold more than line ends.
   */
  ghost predicate Picks(lines: seq<Bytes>, texts: seq<Bytes>, picked: seq<nat>, utf8: Bytes -> bool) {
    && |picked| == |texts|
    && (forall j, k :: 0 <= j < k < |picked| ==> picked[j] < picked[k])
    && (forall j :: 0 <= j < |picked| ==> picked[j] < |lines| && texts[j] == TrimEnd(lines[picked[j]]))
    && (forall i :: 0 <= i < |lines| ==>
          (i in picked <==> utf8(lines[i]) && HasText(lines[i])))
  }

  ghost predicate HasText(line: Bytes) { exists k :: 0 <= k < |line| && line[k] != 10 && line[k] != 13 }

  ghost predicate PicksExactly(lines: seq<Bytes>, texts: seq<Bytes>, utf8: Bytes -> bool) {
    exists picked: seq<nat> :: Picks(lines, texts, picked, utf8)
  }

  /** A line has text once trimmed if it has a byte that is neither a newline nor a return. */
  lemma TrimEmpty(line: Bytes)
    ensures TrimEnd(line) != [] <==> HasText(line)
  {
    var text := TrimEnd(line);
    if text != [] {
      assert line[|text| - 1] == text[|text| - 1];
    }
  }

  lemma {:induction false} KeptAreExactly(lines: seq<Bytes>, utf8: Bytes -> bool)
    ensures PicksExactly(lines, KeptAll(lines, utf8), utf8)
  {
    if lines == [] {
      assert Picks(lines, [], [], utf8);
    } else {
      var n := |lines| - 1;
      var before, line := lines[..n], lines[n];
      KeptAreExactly(before, utf8);
      KeepOne([], before, line, utf8);
      assert before + [line] == lines;
      assert [] + KeptAll(lines, utf8) == KeptAll(lines, utf8) && [] + KeptAll(before, utf8) == KeptAll(before, utf8);
      var picked: seq<nat> :| Picks(before, KeptAll(before, utf8), picked, utf8);
      PicksOneMore(lines, KeptAll(before, utf8), picked, utf8);
    }
  }

  lemma PicksOneMore(lines: seq<Bytes>, texts: seq<Bytes>, picked: seq<nat>, utf8: Bytes -> bool)
    requires lines != [] && Picks(lines[..|lines| - 1], texts, picked, utf8)
    ensures PicksExactly(lines, texts + Kept(lines[|lines| - 1], utf8), utf8)
  {
    var line := lines[|lines| - 1];
    TrimEmpty(line);
    if utf8(line) && HasText(line) {
      PicksLast(lines, texts, picked, utf8);
    } else {
      assert texts + [] == texts;
      PicksNoMore(lines, texts, picked, utf8);
    }
  }

  lemma PicksNoMore(lines: seq<Bytes>, texts: seq<Bytes>, picked: seq<nat>, utf8: Bytes -> bool)
    requires lines != [] && Picks(lines[..|lines| - 1], texts, picked, utf8)
    requires !(utf8(lines[|lines| - 1]) && HasText(lines[|lines| - 1]))
    ensures Picks(lines, texts, picked, utf8)
  {
    var n := |lines| - 1;
    forall i | 0 <= i < |lines| ensures i in picked <==> utf8(lines[i]) && HasText(lines[i]) {
      assert i < n ==> lines[..n][i] == lines[i];
    }
  }

  lemma PicksLast(lines: seq<Bytes>, texts: seq<Bytes>, picked: seq<nat>, utf8: Bytes -> bool)
    requires lines != [] && Picks(lines[..|lines| - 1], texts, picked, utf8)
    requires utf8(lines[|lines| - 1]) && HasText(lines[|lines| - 1])
    ensures Picks(lines, texts + [TrimEnd(lines[|lines| - 1])], picked + [|lines| - 1], utf8)
  {
    var n := |lines| - 1;
    var more := picked + [n];
    forall i | 0 <= i < |lines| ensures i in more <==> utf8(lines[i]) && HasText(lines[i]) {
      assert i in more <==> i in picked || i == n;
      assert i < n ==> lines[..n][i] == lines[i];
    }
  }

  /** A line of text, its newline and nothing else: kept as it is exactly if it is valid UTF-8. */
  lemma OneLineKept(text: Bytes, utf8: Bytes -> bool)
    requires text != [] && 10 !in text && text[|text| - 1] != 13
    ensures Lines(text + [10]) == [text + [10]] && Rest(text + [10]) == []
    ensures KeptAll(Lines(text + [10]), utf8) == if utf8(text + [10]) then [text] else []
  {
    var line := text + [10];
    FirstNewlineNone(text);
    FirstNewlineAppend(text, [10]);
    assert FirstNewline(line) == |text| && FirstLine(line) == line && AfterLine(line) == [];
    assert Lines(line) == [line] + Lines([]) == [line];
    assert TrimEnd(line) == text by {
      assert line[..|line| - 1] == text;
    }
    assert KeptAll([line], utf8) == Kept(line, utf8) + KeptAll([], utf8);
  }

  function LastN(s: seq<Bytes>, n: nat): seq<Bytes> { s[|s| - Min(n, |s|)..] }

  class Ring {
    var lines: seq<Bytes>
    /** Every line ever kept, oldest first. */
    ghost var history: seq<Bytes>

    ghost predicate Valid()
      reads this
    {
      lines == LastN(history, CAP)
    }

    constructor ()
      ensures Valid() && history == []
    {
      lines, history := [], [];
    }

    /** `push_line`, for a line that is valid UTF-8. */
    method PushLine(line: Bytes)
      requires Valid()
      modifies this
      ensures Valid()
      ensures history == old(history) + if TrimEnd(line) != [] then [TrimEnd(line)] else []
    {
      var text := TrimEnd(line);
      if text == [] {
        return;
      }
      while |lines| >= CAP
        invariant |lines| <= CAP
        invariant lines == LastN(history, |lines|) && (|lines| == Min(CAP, |history|) || |lines| == CAP - 1)
        invariant history == old(history)
        decreases |lines|
      {
        lines := lines[1..];
      }
      lines := lines + [text];
      history := history + [text];
    }

    /** The last min(n, CAP, |history|) lines ever kept, oldest first. */
    method Tail(n: nat) returns (r: seq<Bytes>)
      requires Valid()
      ensures |r| == Min(n, Min(500, |history|)) && r == history[|history| - |r|..]
    {
      var take := Min(n, |lines|);
      r := lines[|lines| - take..];
    }
  }

  // ------------------------------------------------------------------- writer

  class LineWriter {
    const ring: Ring
    const utf8: Bytes -> bool
    var partial: Bytes

    ghost predicate Valid()
      reads this
    {
      NEWLINE !in partial
    }

    /** `utf8` is the standard library's validity test on byte strings. */
    constructor (ring: Ring, utf8: Bytes -> bool)
      ensures Valid() && this.ring == ring && this.utf8 == utf8 && partial == []
    {
      this.ring, this.utf8 := ring, utf8;
      partial := [];
    }

    method Write(data: Bytes) returns (n: nat)
      requires Valid() && ring.Valid()
      modifies this, ring
      ensures Valid() && ring.Valid()
      ensures n == |data|
      ensures partial == Rest(old(partial) + data)
      ensures ring.history == old(ring.history) + KeptAll(Lines(old(partial) + data), utf8)
      ensures old(ring.history) <= ring.history
      ensures PicksExactly(Lines(old(partial) + data), ring.history[|old(ring.history)|..], utf8)
      ensures forall text: Bytes ::
                text != [] && 10 !in text && text[|text| - 1] != 13 && old(partial) + data == text + [10] ==>
                  && partial == []
                  && ring.history == old(ring.history) + if utf8(text + [10]) then [text] else []
    {
      partial := partial + data;
      ghost var all, rest := Lines(partial), Rest(partial);
      ghost var done: seq<Bytes> := [];
      var pos := Position(partial);
      while pos < |partial|
        invariant ring.Valid()
        invariant pos == FirstNewline(partial)
        invariant SplitSoFar(all, rest, done, partial)
        invariant ring.history == old(ring.history) + KeptAll(done, utf8)
        decreases |partial|
      {
        SplitGoesOn(all, rest, done, partial);
        var line := partial[..pos + 1];
        partial := partial[pos + 1..];
        if utf8(line) {
          ring.PushLine(line);
        }
        KeepOne(old(ring.history), done, line, utf8);
        done := done + [line];
        pos := Position(partial);
      }
      assert done + [] == done;
      RestIsUnfinished(old(partial) + data);
      KeptAreExactly(all, utf8);
      assert ring.history[|old(ring.history)|..] == KeptAll(all, utf8);
      forall text: Bytes
        | text != [] && 10 !in text && text[|text| - 1] != 13 && old(partial) + data == text + [10]
        ensures rest == [] && KeptAll(all, utf8) == if utf8(text + [10]) then [text] else []
      {
        OneLineKept(text, utf8);
      }
      return |data|;
    }

    /** `position(|&b| b == b'\n')`; the length when there is none. */
    method Position(s: Bytes) returns (pos: nat)
      ensures pos == FirstNewline(s)
    {
      pos := 0;
      while pos < |s| && s[pos] != NEWLINE
        invariant pos <= |s| && FirstNewline(s) == pos + FirstNewline(s[pos..])
      {
        assert s[pos..][1..] == s[pos + 1..];
        pos := pos + 1;
      }
    }

    /** `Drop`: an unfinished line is kept as a line. */
    method Drop()
      requires Valid() && ring.Valid()
      modifies this, ring
      ensures ring.Valid()
      ensures ring.history == old(ring.history) + Kept(old(partial), utf8)
      ensures if utf8(old(partial)) && HasText(old(partial))
              then ring.history == old(ring.history) + [TrimEnd(old(partial))]
              else ring.history == old(ring.history)
    {
      TrimEmpty(partial);
      if partial != [] {
        if utf8(partial) {
          ring.PushLine(partial);
        }
      }
    }
  }

  // -------------------------------------------------------- fragment independence

  /** The lines ever kept, and `partial`, after writing `chunks` one by one. */
  function AfterWrites(history: seq<Bytes>, partial: Bytes, chunks: seq<Bytes>, utf8: Bytes -> bool)
    : (seq<Bytes>, Bytes)
    decreases |chunks|
  {
    if chunks == [] then (history, partial)
    else
      var data := partial + chunks[0];
      AfterWrites(history + KeptAll(Lines(data), utf8), Rest(data), chunks[1..], utf8)
  }

  /**
   However a byte stream is cut into `write` calls, the lines kept are those of the whole stream, and
   what stays in `partial` is what follows its last newline.
   */
  lemma {:induction false} FragmentIndependent(history: seq<Bytes>, partial: Bytes, chunks: seq<Bytes>,
                                               utf8: Bytes -> bool)
    requires NEWLINE !in partial
    ensures var data := partial + Flatten(chunks);
            AfterWrites(history, partial, chunks, utf8) == (history + KeptAll(Lines(data), utf8), Rest(data))
    decreases |chunks|
  {
    if chunks == [] {
      FirstNewlineNone(partial);
      assert partial + Flatten(chunks) == partial;
      assert history + KeptAll([], utf8) == history;
    } else {
      var first := partial + chunks[0];
      var later := Flatten(chunks[1..]);
      assert partial + Flatten(chunks) == first + later;
      OneWriteOrTwo(history, first, later, utf8);
      RestIsUnfinished(first);
      FragmentIndependent(history + KeptAll(Lines(first), utf8), Rest(first), chunks[1..], utf8);
    }
  }

  /** Writing `first` and then `later` keeps what writing both at once keeps. */
  lemma OneWriteOrTwo(history: seq<Bytes>, first: Bytes, later: Bytes, utf8: Bytes -> bool)
    ensures history + KeptAll(Lines(first), utf8) + KeptAll(Lines(Rest(first) + later), utf8)
         == history + KeptAll(Lines(first + later), utf8)
    ensures Rest(Rest(first) + later) == Rest(first + later)
  {
    SplitInTwo(first, later);
    KeptAppend(Lines(first), Lines(Rest(first) + later), utf8);
    AppendAssociates(history, KeptAll(Lines(first), utf8), KeptAll(Lines(Rest(first) + later), utf8));
  }

  /** Successive `write` calls on one writer. */
  method WriteAll(writer: LineWriter, chunks: seq<Bytes>)
    requires writer.Valid() && writer.ring.Valid()
    modifies writer, writer.ring
    ensures writer.Valid() && writer.ring.Valid()
    ensures (writer.ring.history, writer.partial)
         == AfterWrites(old(writer.ring.history), old(writer.partial), chunks, writer.utf8)
    decreases |chunks|
  {
    if chunks != [] {
      var n := writer.Write(chunks[0]);
      WriteAll(writer, chunks[1..]);
    }
  }

  lemma NewOnes(before: seq<Bytes>, a: seq<Bytes>, b: seq<Bytes>)
    ensures before <= before + a + b && (before + a + b)[|before|..] == a + b
  {
    AppendAssociates(before, a, b);
  }

  lemma LifeKept(lines: seq<Bytes>, rest: Bytes, utf8: Bytes -> bool)
    ensures PicksExactly(lines + if rest == [] then [] else [rest], KeptAll(lines, utf8) + Kept(rest, utf8), utf8)
  {
    var all := lines + if rest == [] then [] else [rest];
    KeptAreExactly(all, utf8);
    if rest == [] {
      assert all == lines && Kept(rest, utf8) == [];
      assert KeptAll(lines, utf8) + [] == KeptAll(lines, utf8);
    } else {
      KeptAppend(lines, [rest], utf8);
      assert KeptAll([rest], utf8) == Kept(rest, utf8) + KeptAll([], utf8) == Kept(rest, utf8);
    }
  }

  /** The life of a writer: the lines of the whole stream, then its unfinished end, however it was cut. */
  method WriteAllAndDrop(ring: Ring, chunks: seq<Bytes>, utf8: Bytes -> bool)
    requires ring.Valid()
    modifies ring
    ensures ring.Valid()
    ensures ring.history
         == old(ring.history) + KeptAll(Lines(Flatten(chunks)), utf8) + Kept(Rest(Flatten(chunks)), utf8)
    ensures old(ring.history) <= ring.history
    ensures var (lines, rest) := (Lines(Flatten(chunks)), Rest(Flatten(chunks)));
            PicksExactly(lines + if rest == [] then [] else [rest], ring.history[|old(ring.history)|..], utf8)
  {
    var writer := new LineWriter(ring, utf8);
    FragmentIndependent(ring.history, [], chunks, utf8);
    assert [] + Flatten(chunks) == Flatten(chunks);
    WriteAll(writer, chunks);
    writer.Drop();
    LifeKept(Lines(Flatten(chunks)), Rest(Flatten(chunks)), utf8);
    NewOnes(old(ring.history), KeptAll(Lines(Flatten(chunks)), utf8), Kept(Rest(Flatten(chunks)), utf8));
  }
}
