/**
 * Newline framing of the agent's output: what one split of a stream yields, and what
 * the incremental parser with its capped residual buffer yields for every way of
 * cutting the stream into chunks.
 */
module AcpFraming {
  import opened Prelude
  import opened JsText

  datatype Frames = Frames(lines: seq<string>, rest: string)

  function StripCr(s: string): string {
    if s != "" && s[|s| - 1] == '\r' then s[..|s| - 1] else s
  }

  /** One split on an optional carriage return and a line feed: complete lines and the remainder. */
  function Split(s: string): Frames
    decreases |s|
  {
    var i := IndexOf(s, '\n');
    if i < 0 then Frames([], s)
    else
      var tail := Split(s[i + 1..]);
      Frames([StripCr(s[..i])] + tail.lines, tail.rest)
  }

  /** The residual buffer keeps at most the last `cap` characters. */
  function Capped(s: string, cap: nat): string {
    if |s| > cap then s[|s| - cap..] else s
  }

  /** One arrival of data: split buffer and chunk together, then cap what is incomplete. */
  function Feed(buffer: string, chunk: string, cap: nat): Frames {
    var f := Split(buffer + chunk);
    Frames(f.lines, Capped(f.rest, cap))
  }

  /** All lines and the final buffer after the chunks arrive one by one. */
  function FeedAll(buffer: string, chunks: seq<string>, cap: nat): Frames
    decreases |chunks|
  {
    if chunks == [] then Frames([], buffer)
    else
      var first := Feed(buffer, chunks[0], cap);
      var tail := FeedAll(first.rest, chunks[1..], cap);
      Frames(first.lines + tail.lines, tail.rest)
  }

  function Join(chunks: seq<string>): string {
    if chunks == [] then "" else chunks[0] + Join(chunks[1..])
  }

  /** Every terminated line of the stream, its carriage return included, fits the buffer. */
  predicate Fits(s: string, cap: nat)
    decreases |s|
  {
    var i := IndexOf(s, '\n');
    i >= 0 ==> i <= cap && Fits(s[i + 1..], cap)
  }

  /** The first line feed of a concatenation. */
  lemma IndexOfConcat(a: string, b: string)
    ensures IndexOf(a, '\n') >= 0 ==> IndexOf(a + b, '\n') == IndexOf(a, '\n')
    ensures IndexOf(a, '\n') < 0 && IndexOf(b, '\n') >= 0 ==> IndexOf(a + b, '\n') == |a| + IndexOf(b, '\n')
    ensures IndexOf(a, '\n') < 0 && IndexOf(b, '\n') < 0 ==> IndexOf(a + b, '\n') < 0
  {
    var i, j := IndexOf(a, '\n'), IndexOf(b, '\n');
    IndexOfFirst(a, '\n');
    IndexOfFirst(b, '\n');
    if i >= 0 {
      assert (a + b)[..i] == a[..i];
      IndexOfIs(a + b, '\n', i);
    } else if j >= 0 {
      assert (a + b)[..|a| + j] == a + b[..j];
      IndexOfIs(a + b, '\n', |a| + j);
    }
  }

  lemma {:induction false} RestHasNoLf(s: string)
    ensures IndexOf(Split(s).rest, '\n') < 0
    decreases |s|
  {
    if IndexOf(s, '\n') < 0 {
    } else {
      RestHasNoLf(s[IndexOf(s, '\n') + 1..]);
    }
  }

  lemma SplitAt(s: string, i: nat)
    requires IndexOf(s, '\n') == i
    ensures Split(s).lines == [StripCr(s[..i])] + Split(s[i + 1..]).lines
    ensures Split(s).rest == Split(s[i + 1..]).rest
  {
  }

  /** The line without a final carriage return. */
  predicate IsLine(line: string, raw: string) {
    raw == line + "\r" || (raw == line && !(raw != "" && raw[|raw| - 1] == '\r'))
  }

  lemma StripIsLine(raw: string)
    ensures IsLine(StripCr(raw), raw)
  {
    if StripCr(raw) != raw {
      assert raw == raw[..|raw| - 1] + "\r";
    }
  }

  /** Each line is the text up to a line feed, without a carriage return right before it. */
  lemma SplitFirst(raw: string, more: string)
    requires '\n' !in raw
    ensures var f := Split(raw + "\n" + more);
      && f.lines != [] && IsLine(f.lines[0], raw)
      && f.lines[1..] == Split(more).lines && f.rest == Split(more).rest
    ensures Split(raw) == Frames([], raw)
  {
    var s := raw + "\n" + more;
    assert s[..|raw|] == raw && s[|raw| + 1..] == more;
    IndexOfIs(s, '\n', |raw|);
    SplitAt(s, |raw|);
    StripIsLine(raw);
  }

  /** A first line of a stream is the first line of any continuation of it. */
  lemma SplitAtInFirst(a: string, b: string, i: nat)
    requires IndexOf(a, '\n') == i
    ensures Split(a + b).lines == [StripCr(a[..i])] + Split(a[i + 1..] + b).lines
    ensures Split(a + b).rest == Split(a[i + 1..] + b).rest
  {
    IndexOfConcat(a, b);
    assert (a + b)[..i] == a[..i] && (a + b)[i + 1..] == a[i + 1..] + b;
    SplitAt(a + b, i);
  }

  /** Splitting in two steps, carrying the remainder over, is splitting once. */
  lemma {:induction false} SplitConcat(a: string, b: string)
    ensures Split(a + b).lines == Split(a).lines + Split(Split(a).rest + b).lines
    ensures Split(a + b).rest == Split(Split(a).rest + b).rest
    decreases |a|
  {
    var i := IndexOf(a, '\n');
    if i >= 0 {
      SplitAt(a, i);
      SplitAtInFirst(a, b, i);
      SplitConcat(a[i + 1..], b);
      Assoc([StripCr(a[..i])], Split(a[i + 1..]).lines, Split(Split(a).rest + b).lines);
    } else {
      assert Split(a).lines == [] && Split(a).rest == a;
    }
  }

  lemma {:induction false} FitsAt(s: string, i: nat, cap: nat)
    requires IndexOf(s, '\n') == i
    ensures Fits(s, cap) <==> i <= cap && Fits(s[i + 1..], cap)
  {
  }

  lemma FirstLineFits(a: string, b: string, i: nat, cap: nat)
    requires IndexOf(a, '\n') == i
    requires Fits(a[i + 1..] + b, cap) <==> Fits(a[i + 1..], cap) && Fits(Split(a[i + 1..]).rest + b, cap)
    ensures Fits(a + b, cap) <==> Fits(a, cap) && Fits(Split(a).rest + b, cap)
  {
    var rest := Split(a).rest;
    SplitAt(a, i);
    FitsAt(a, i, cap);
    IndexOfConcat(a, b);
    FitsAt(a + b, i, cap);
    assert (a + b)[i + 1..] == a[i + 1..] + b;
    assert Fits(a + b, cap) <==> i <= cap && Fits(a[i + 1..], cap) && Fits(rest + b, cap);
  }

  /** A stream that fits splits into a part and a remainder that both fit. */
  lemma {:induction false} FitsConcat(a: string, b: string, cap: nat)
    ensures Fits(a + b, cap) <==> Fits(a, cap) && Fits(Split(a).rest + b, cap)
    decreases |a|
  {
    var i := IndexOf(a, '\n');
    if i < 0 {
      assert Split(a) == Frames([], a);
    } else {
      FitsConcat(a[i + 1..], b, cap);
      FirstLineFits(a, b, i, cap);
    }
  }

  lemma {:induction false} NoLfJoin(chunks: seq<string>, rest: string)
    requires IndexOf(rest + Join(chunks), '\n') < 0 && chunks != []
    ensures IndexOf(rest + chunks[0], '\n') < 0 && IndexOf(chunks[0], '\n') < 0
  {
    var s := rest + Join(chunks);
    assert s == (rest + chunks[0]) + Join(chunks[1..]);
    assert s == rest + (chunks[0] + Join(chunks[1..]));
    IndexOfConcat(rest + chunks[0], Join(chunks[1..]));
    IndexOfConcat(rest, chunks[0]);
  }

  /** Capping early or late leaves the same last characters. */
  lemma CappedConcat(a: string, b: string, cap: nat)
    ensures Capped(Capped(a, cap) + b, cap) == Capped(a + b, cap)
  {
  }

  /** A remainder that outgrew the buffer can only be followed by a chunk without line feed. */
  lemma FeedIsSplit(rest: string, chunks: seq<string>, cap: nat)
    requires IndexOf(rest, '\n') < 0 && chunks != [] && Fits(rest + Join(chunks), cap)
    ensures Feed(Capped(rest, cap), chunks[0], cap)
         == Frames(Split(rest + chunks[0]).lines, Capped(Split(rest + chunks[0]).rest, cap))
  {
    if |rest| > cap {
      IndexOfConcat(rest, Join(chunks));
      NoLfJoin(chunks, rest);
      IndexOfConcat(rest[..|rest| - cap], rest[|rest| - cap..]);
      assert rest == rest[..|rest| - cap] + rest[|rest| - cap..];
      IndexOfConcat(Capped(rest, cap), chunks[0]);
      CappedConcat(rest, chunks[0], cap);
    }
  }

  /**
   * From a buffer that holds what the stream so far left over, the parser yields what
   * one split yields, as long as every terminated line fits.
   */
  lemma {:induction false} FeedAllIsSplit(rest: string, chunks: seq<string>, cap: nat)
    requires IndexOf(rest, '\n') < 0 && Fits(rest + Join(chunks), cap)
    ensures FeedAll(Capped(rest, cap), chunks, cap)
         == Frames(Split(rest + Join(chunks)).lines, Capped(Split(rest + Join(chunks)).rest, cap))
    decreases |chunks|
  {
    var all := rest + Join(chunks);
    if chunks == [] {
      assert all == rest;
    } else {
      var seen := rest + chunks[0];
      assert all == seen + Join(chunks[1..]);
      FeedIsSplit(rest, chunks, cap);
      SplitConcat(seen, Join(chunks[1..]));
      FitsConcat(seen, Join(chunks[1..]), cap);
      RestHasNoLf(seen);
      FeedAllIsSplit(Split(seen).rest, chunks[1..], cap);
    }
  }

  /** The lines handed on when a stream arrives in one piece, and cut between h and t. */
  function Whole(s: string): seq<string> {
    Split(s).lines
  }

  function Cut(h: string, t: string, cap: nat): seq<string> {
    Split(h).lines + Split(Capped(Split(h).rest, cap) + t).lines
  }

  lemma FeedCons(buffer: string, chunk: string, more: seq<string>, cap: nat)
    ensures FeedAll(buffer, [chunk] + more, cap).lines
         == Feed(buffer, chunk, cap).lines + FeedAll(Feed(buffer, chunk, cap).rest, more, cap).lines
    ensures FeedAll(buffer, [chunk] + more, cap).rest == FeedAll(Feed(buffer, chunk, cap).rest, more, cap).rest
  {
    assert ([chunk] + more)[1..] == more;
  }

  lemma FeedOne(s: string, cap: nat)
    ensures FeedAll("", [s], cap) == Frames(Split(s).lines, Capped(Split(s).rest, cap))
  {
    FeedCons("", s, [], cap);
    assert "" + s == s && [s] + [] == [s];
    assert Split(s).lines + [] == Split(s).lines;
  }

  lemma FeedTwo(h: string, t: string, cap: nat)
    ensures FeedAll("", [h] + [t], cap).lines == Cut(h, t, cap)
  {
    var first := Feed("", h, cap);
    assert "" + h == h;
    FeedCons("", h, [t], cap);
    FeedCons(first.rest, t, [], cap);
    assert [t] + [] == [t];
    assert Split(first.rest + t).lines + [] == Split(first.rest + t).lines;
  }

  lemma JoinTwo(h: string, t: string)
    ensures Join([h] + [t]) == h + t
  {
    assert ([h] + [t])[1..] == [t] && [t][1..] == [];
    assert Join([t]) == t + Join([]) == t;
  }

  function FirstLine(first: string): seq<string>
    requires first != ""
  {
    [StripCr(first[..|first| - 1])]
  }

  lemma AfterFirstLine(first: string, more: string)
    requires first != "" && IndexOf(first, '\n') == |first| - 1
    ensures Split(first + more).lines == FirstLine(first) + Split(more).lines
    ensures Split(first + more).rest == Split(more).rest
  {
    IndexOfConcat(first, more);
    assert (first + more)[..|first| - 1] == first[..|first| - 1] && (first + more)[|first|..] == more;
  }

  /** When the line feed comes right after a, a is the first line. */
  lemma LfAfter(a: string, tail: string)
    requires IndexOf(a, '\n') < 0 && tail != "" && tail[0] == '\n'
    ensures Split(a + tail).lines != [] && Split(a + tail).lines[0] == StripCr(a)
  {
    IndexOfConcat(a, tail);
    assert (a + tail)[..|a|] == a;
    SplitAt(a + tail, |a|);
  }

  lemma CappedLine(line: string, cap: nat)
    requires IndexOf(line, '\n') < 0 && |line| > cap >= 1
    ensures IndexOf(Capped(line, cap), '\n') < 0 && Split(line) == Frames([], line)
    ensures |StripCr(Capped(line, cap))| < |StripCr(line)|
  {
    var kept := Capped(line, cap);
    assert line == line[..|line| - cap] + kept;
    IndexOfConcat(line[..|line| - cap], kept);
    assert kept[|kept| - 1] == line[|line| - 1];
  }

  /** A line longer than the cap, cut just before its line feed, loses its beginning. */
  lemma CutLineDiffers(line: string, tail: string, cap: nat)
    requires IndexOf(line, '\n') < 0 && |line| > cap >= 1 && tail != "" && tail[0] == '\n'
    ensures Cut(line, tail, cap) != Whole(line + tail)
  {
    var kept := Capped(line, cap);
    CappedLine(line, cap);
    LfAfter(kept, tail);
    LfAfter(line, tail);
    assert Cut(line, tail, cap) == [] + Split(kept + tail).lines;
  }

  /** A complete first line is handed on either way and changes nothing after it. */
  lemma CutAfterFirstLine(first: string, h: string, t: string, cap: nat)
    requires first != "" && IndexOf(first, '\n') == |first| - 1
    ensures Cut(first + h, t, cap) == FirstLine(first) + Cut(h, t, cap)
  {
    AfterFirstLine(first, h);
    Assoc(FirstLine(first), Split(h).lines, Split(Capped(Split(h).rest, cap) + t).lines);
  }

  lemma SamePrefix<T>(a: seq<T>, b: seq<T>, c: seq<T>)
    requires b != c
    ensures a + b != a + c
  {
    assert (a + b)[|a|..] == b && (a + c)[|a|..] == c;
  }

  lemma NoLfBefore(s: string, i: nat)
    requires IndexOf(s, '\n') == i
    ensures IndexOf(s[..i], '\n') < 0 && IndexOf(s[..i + 1], '\n') == i
  {
    assert s[..i + 1][..i] == s[..i];
    IndexOfFirst(s, '\n');
    IndexOfIs(s[..i + 1], '\n', i);
  }

  lemma PrependedDiffers(first: string, h: string, t: string, cap: nat)
    requires first != "" && IndexOf(first, '\n') == |first| - 1
    requires Cut(h, t, cap) != Whole(h + t)
    ensures Cut(first + h, t, cap) != Whole(first + (h + t))
  {
    CutAfterFirstLine(first, h, t, cap);
    AfterFirstLine(first, h + t);
    SamePrefix(FirstLine(first), Cut(h, t, cap), Whole(h + t));
  }

  lemma SplitAround(s: string, i: nat, h: string, t: string)
    requires i < |s| && s[i + 1..] == h + t
    ensures s == s[..i + 1] + (h + t) == (s[..i + 1] + h) + t
  {
    Assoc(s[..i + 1], h, t);
    assert s == s[..i + 1] + s[i + 1..];
  }

  lemma Prepend(s: string, i: nat, h: string, t: string, cap: nat) returns (head: string, tail: string)
    requires i < |s| && s[i + 1..] == h + t && IndexOf(s[..i + 1], '\n') == i
    requires Cut(h, t, cap) != Whole(h + t)
    ensures s == head + tail && Cut(head, tail, cap) != Whole(s)
  {
    var first := s[..i + 1];
    head, tail := first + h, t;
    SplitAround(s, i, h, t);
    PrependedDiffers(first, h, t, cap);
  }

  /** When some terminated line does not fit, cutting before its line feed changes what is handed on. */
  lemma {:induction false} OversizedLineDiffers(s: string, cap: nat) returns (head: string, tail: string)
    requires !Fits(s, cap) && cap >= 1
    ensures s == head + tail && Cut(head, tail, cap) != Whole(s)
    decreases |s|
  {
    var i := IndexOf(s, '\n');
    NoLfBefore(s, i);
    if i > cap {
      head, tail := s[..i], s[i..];
      assert s == head + tail;
      CutLineDiffers(head, tail, cap);
    } else {
      assert !Fits(s[i + 1..], cap);
      var h, t := OversizedLineDiffers(s[i + 1..], cap);
      head, tail := Prepend(s, i, h, t, cap);
    }
  }

  lemma CutThatDiffers(s: string, cap: nat) returns (chunks: seq<string>)
    requires !Fits(s, cap) && cap >= 1
    ensures Join(chunks) == s && FeedAll("", chunks, cap).lines != FeedAll("", [s], cap).lines
  {
    var head, tail := OversizedLineDiffers(s, cap);
    FeedTwo(head, tail, cap);
    JoinTwo(head, tail);
    FeedOne(s, cap);
    chunks := [head] + [tail];
  }

  /**
   * Chunk independence, exactly: every way of cutting a stream yields the lines and the
   * buffer of the uncut stream if and only if every terminated line - with its carriage
   * return - fits the buffer.
   */
  lemma ChunkingIsIrrelevantExactly(s: string, cap: nat)
    requires cap >= 1
    ensures Fits(s, cap) <==>
              forall chunks :: Join(chunks) == s ==> FeedAll("", chunks, cap) == FeedAll("", [s], cap)
  {
    FeedOne(s, cap);
    if Fits(s, cap) {
      forall chunks | Join(chunks) == s
        ensures FeedAll("", chunks, cap) == FeedAll("", [s], cap)
      {
        assert "" + Join(chunks) == s;
        FeedAllIsSplit("", chunks, cap);
      }
    } else {
      var chunks := CutThatDiffers(s, cap);
      assert Join(chunks) == s;
    }
  }
}
