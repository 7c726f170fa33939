/** What one line of a .env file sets, character by character, and what a merge does to such lines. */
module EnvSettings {
  import opened Prelude
  import opened JsText
  import opened EnvLines
  import opened EnvText
  import opened EnvMerge

  predicate Blank(s: string) {
    forall c :: c in s ==> IsSpace(c)
  }

  /** No white space at either end. */
  predicate Trimmed(s: string) {
    s != "" ==> !IsSpace(s[0]) && !IsSpace(s[|s| - 1])
  }

  /** The text is the core with white space around it. */
  ghost predicate Padded(s: string, core: string) {
    Trimmed(core) && exists before, after :: Blank(before) && Blank(after) && s == before + core + after
  }

  ghost predicate SplitsAt(raw: string, i: int, k: string, v: string) {
    0 <= i < |raw| && raw[i] == '=' && '=' !in raw[..i] && Padded(raw[..i], k) && Padded(raw[i + 1..], v)
  }

  /** The line sets k to v: the two sides of its first equals sign; and it is not a comment. */
  ghost predicate IsSetting(raw: string, k: string, v: string) {
    !("#" <= k) && exists i :: SplitsAt(raw, i, k, v)
  }

  // ---- Trimming ----

  lemma {:induction false} TrimStartOf(pad: string, s: string)
    requires Blank(pad) && (s != "" ==> !IsSpace(s[0]))
    ensures TrimStart(pad + s) == s
  {
    if pad == "" {
      assert pad + s == s;
    } else {
      assert pad[0] in pad && (pad + s)[1..] == pad[1..] + s;
      TrimStartOf(pad[1..], s);
    }
  }

  lemma {:induction false} TrimEndOf(s: string, pad: string)
    requires Blank(pad) && (s != "" ==> !IsSpace(s[|s| - 1]))
    ensures TrimEnd(s + pad) == s
  {
    if pad == "" {
      assert s + pad == s;
    } else {
      var n := |pad| - 1;
      assert pad[n] in pad && (s + pad)[..|s + pad| - 1] == s + pad[..n];
      TrimEndOf(s, pad[..n]);
    }
  }

  /** Trimming removes white space around a text, and nothing of the text. */
  lemma TrimOf(before: string, s: string, after: string)
    requires Blank(before) && Blank(after) && Trimmed(s)
    ensures Trim(before + s + after) == s
  {
    if s == "" {
      TrimStartOf(before + after, "");
      assert before + s + after == before + after + "";
    } else {
      assert before + s + after == before + (s + after);
      TrimStartOf(before, s + after);
      TrimEndOf(s, after);
    }
  }

  lemma StartParts(s: string) returns (before: string)
    ensures Blank(before) && s == before + TrimStart(s)
  {
    TrimStartIs(s);
    before := s[..|s| - |TrimStart(s)|];
  }

  lemma EndParts(s: string) returns (after: string)
    ensures Blank(after) && s == TrimEnd(s) + after
  {
    TrimEndIs(s);
    after := s[|TrimEnd(s)|..];
  }

  lemma TrimIsTrimmed(s: string)
    ensures Trimmed(Trim(s))
  {
    TrimEndIs(TrimStart(s));
  }

  /** What trimming removed. */
  lemma TrimParts(s: string) returns (before: string, after: string)
    ensures Blank(before) && Blank(after) && s == before + Trim(s) + after && Trimmed(Trim(s))
  {
    before := StartParts(s);
    after := EndParts(TrimStart(s));
    Assoc(before, Trim(s), after);
    TrimIsTrimmed(s);
  }

  lemma TrimExactly(s: string, core: string)
    ensures Trim(s) == core <==> Padded(s, core)
  {
    var before, after := TrimParts(s);
    if Padded(s, core) {
      var b, a :| Blank(b) && Blank(a) && s == b + core + a;
      TrimOf(b, core, a);
    }
  }

  // ---- One line ----

  lemma {:induction false} TrimStartStops(left: string, right: string)
    ensures TrimStart(left + "=" + right) == TrimStart(left) + "=" + right
  {
    var s := left + "=" + right;
    if left == "" {
      assert s[0] == '=';
    } else {
      assert s[0] == left[0] && s[1..] == left[1..] + "=" + right;
      TrimStartStops(left[1..], right);
    }
  }

  lemma {:induction false} TrimEndStops(left: string, right: string)
    ensures TrimEnd(left + "=" + right) == left + "=" + TrimEnd(right)
  {
    var s := left + "=" + right;
    if right == "" {
      assert s[|s| - 1] == '=';
    } else {
      assert s[|s| - 1] == right[|right| - 1] && s[..|s| - 1] == left + "=" + right[..|right| - 1];
      TrimEndStops(left, right[..|right| - 1]);
    }
  }

  /** Trimming one end first changes nothing. */
  lemma TrimTwice(s: string)
    ensures Trim(TrimStart(s)) == Trim(s) && Trim(TrimEnd(s)) == Trim(s)
  {
    var before, after := TrimParts(s);
    var t := TrimEnd(s);
    TrimEndIs(s);
    if Trim(s) == "" {
      assert Blank(t);
      TrimOf(t, "", "");
      assert t + "" + "" == t;
    } else {
      assert s == (before + Trim(s)) + after;
      TrimEndOf(before + Trim(s), after);
      TrimOf(before, Trim(s), "");
      assert before + Trim(s) + "" == before + Trim(s);
    }
  }

  /** Trimming the end removes no "#". */
  lemma HashStays(s: string)
    ensures "#" <= TrimEnd(s) <==> "#" <= s
  {
    TrimEndIs(s);
  }

  lemma TrimSides(left: string, right: string)
    ensures Trim(left + "=" + right) == TrimStart(left) + "=" + TrimEnd(right)
  {
    TrimStartStops(left, right);
    TrimEndStops(TrimStart(left), right);
  }

  lemma ParseTrimmed(raw: string, start: string, end: string)
    requires Trim(raw) == start + "=" + end && '=' !in start
    ensures ParseLine(raw)
         == if "#" <= start then EnvLine(None, "", raw) else EnvLine(Some(Trim(start)), Trim(end), raw)
  {
    var t := start + "=" + end;
    assert t[..|start|] == start && t[|start| + 1..] == end;
    IndexOfIs(t, '=', |start|);
    assert "#" <= start <==> t[0] == '#';
  }

  lemma ParseSides(left: string, right: string)
    requires '=' !in left
    ensures ParseLine(left + "=" + right)
         == EnvLine(if "#" <= Trim(left) then None else Some(Trim(left)),
                    if "#" <= Trim(left) then "" else Trim(right), left + "=" + right)
  {
    var start := TrimStart(left);
    TrimSides(left, right);
    TrimStartIs(left);
    ParseTrimmed(left + "=" + right, start, TrimEnd(right));
    TrimTwice(left);
    TrimTwice(right);
    HashStays(start);
  }

  lemma NoEqualsNoKey(raw: string)
    requires '=' !in raw
    ensures ParseLine(raw) == EnvLine(None, "", raw)
  {
    var before, after := TrimParts(raw);
    assert '=' !in Trim(raw);
  }

  /** Where the first equals sign of a text is. */
  lemma FirstEquals(raw: string) returns (i: nat)
    requires '=' in raw
    ensures i < |raw| && raw[i] == '=' && '=' !in raw[..i] && raw == raw[..i] + "=" + raw[i + 1..]
  {
    IndexOfFirst(raw, '=');
    i := IndexOf(raw, '=');
  }

  /** A line parses to a key and a value exactly when it sets that key to that value. */
  lemma ParseLineExactly(raw: string, k: string, v: string)
    ensures ParseLine(raw) == EnvLine(Some(k), v, raw) <==> IsSetting(raw, k, v)
  {
    if '=' in raw {
      var i := FirstEquals(raw);
      ParseSides(raw[..i], raw[i + 1..]);
      TrimExactly(raw[..i], k);
      TrimExactly(raw[i + 1..], v);
      if ParseLine(raw) == EnvLine(Some(k), v, raw) {
        assert SplitsAt(raw, i, k, v);
      }
      if j :| SplitsAt(raw, j, k, v) {
        IndexOfIs(raw, '=', i);
        IndexOfIs(raw, '=', j);
      }
    } else {
      NoEqualsNoKey(raw);
    }
  }

  /** The first thing on the line is a "#". */
  ghost predicate IsComment(raw: string) {
    exists i :: 0 <= i < |raw| && raw[i] == '#' && Blank(raw[..i])
  }

  lemma CommentExactly(raw: string)
    ensures "#" <= TrimStart(raw) <==> IsComment(raw)
  {
    var t := TrimStart(raw);
    var n := |raw| - |t|;
    TrimStartIs(raw);
    assert Blank(raw[..n]);
    if i :| 0 <= i < |raw| && raw[i] == '#' && Blank(raw[..i]) {
      assert raw == raw[..i] + raw[i..];
      TrimStartOf(raw[..i], raw[i..]);
    }
    if "#" <= t { assert raw[n] == '#'; }
  }

  /** A line sets nothing exactly when it is a comment or has no equals sign. */
  lemma KeylessExactly(raw: string)
    ensures ParseLine(raw).key.None? <==> IsComment(raw) || '=' !in raw
    ensures ParseLine(raw).key.None? ==> ParseLine(raw) == EnvLine(None, "", raw)
  {
    CommentExactly(raw);
    if '=' in raw {
      var i := FirstEquals(raw);
      var left := raw[..i];
      ParseSides(left, raw[i + 1..]);
      TrimStartStops(left, raw[i + 1..]);
      TrimEndIs(TrimStart(left));
      assert "#" <= Trim(left) <==> "#" <= TrimStart(raw);
    } else {
      NoEqualsNoKey(raw);
    }
  }

  // ---- What a merge does to the lines ----

  /** The j-th line is the last to set k, to v. */
  ghost predicate LastSetting(lines: seq<string>, k: string, j: nat, v: string) {
    && j < |lines| && IsSetting(lines[j], k, v)
    && forall m, u :: j < m < |lines| ==> !IsSetting(lines[m], k, u)
  }

  ghost predicate NeverSets(lines: seq<string>, k: string) {
    forall m, u :: 0 <= m < |lines| ==> !IsSetting(lines[m], k, u)
  }

  lemma KeyExactly(raw: string, k: string)
    ensures ParseLine(raw).key == Some(k) <==> IsSetting(raw, k, ParseLine(raw).value)
    ensures forall u :: IsSetting(raw, k, u) ==> u == ParseLine(raw).value
  {
    ParseLineExactly(raw, k, ParseLine(raw).value);
    forall u | IsSetting(raw, k, u)
      ensures u == ParseLine(raw).value
    {
      ParseLineExactly(raw, k, u);
    }
  }

  lemma {:induction false} LastEntry(lines: seq<EnvLine>, k: string, j: nat)
    requires j < |lines| && lines[j].key == Some(k) && forall m :: j < m < |lines| ==> lines[m].key != Some(k)
    ensures k in Values(lines) && Values(lines)[k] == lines[j].value
    ensures k in ByKey(lines) && ByKey(lines)[k] == lines[j]
  {
    var n := |lines| - 1;
    if j < n {
      assert lines[n].key != Some(k);
      LastEntry(lines[..n], k, j);
    }
  }

  lemma {:induction false} NoEntry(lines: seq<EnvLine>, k: string)
    requires forall m :: 0 <= m < |lines| ==> lines[m].key != Some(k)
    ensures k !in Values(lines) && k !in ByKey(lines)
  {
    if lines == [] {
    } else {
      NoEntry(lines[..|lines| - 1], k);
    }
  }

  /** The last line that sets a key gives its value. */
  lemma LastLineCounts(raws: seq<string>, k: string, j: nat, v: string)
    requires LastSetting(raws, k, j, v)
    ensures var lines := ParseLines(raws);
      && k in Values(lines) && Values(lines)[k] == v
      && k in ByKey(lines) && ByKey(lines)[k] == EnvLine(Some(k), v, raws[j])
  {
    var lines := ParseLines(raws);
    ParseLineExactly(raws[j], k, v);
    forall m | j < m < |lines|
      ensures lines[m].key != Some(k)
    {
      KeyExactly(raws[m], k);
    }
    LastEntry(lines, k, j);
  }

  lemma NeverSetHasNoValue(raws: seq<string>, k: string)
    requires NeverSets(raws, k)
    ensures k !in Values(ParseLines(raws)) && k !in ByKey(ParseLines(raws))
  {
    var lines := ParseLines(raws);
    forall m | 0 <= m < |lines|
      ensures lines[m].key != Some(k)
    {
      KeyExactly(raws[m], k);
    }
    NoEntry(lines, k);
  }

  /** The line of the merged file at the place of an existing line. */
  lemma MergedLineAt(existing: string, managed: string, banner: string, i: nat)
    requires '\n' !in banner && i < |SplitLines(existing)|
    ensures var e, m := ParseEnvLines(existing), ParseEnvLines(managed);
      && i < |SplitLines(MergeEnvContent(existing, managed, banner))|
      && SplitLines(MergeEnvContent(existing, managed, banner))[i] == MergedLine(e[i], ByKey(m), Values(e)).raw
  {
    var e, m := ParseEnvLines(existing), ParseEnvLines(managed);
    var merged := MergeEnvContent(existing, managed, banner);
    MergedFileLines(existing, managed, banner);
    assert ParseEnvLines(merged)[i] == MergedLine(e[i], ByKey(m), Values(e));
    assert ParseEnvLines(merged)[i].raw == SplitLines(merged)[i];
  }

  /**
   * A line that sets a managed key is replaced, verbatim, by the wizard's last line for that key -
   * unless the wizard leaves the key empty and the user's last value for it is not.
   */
  lemma ManagedLineIs(existing: string, managed: string, banner: string, i: nat, k: string, u: string,
                      j: nat, v: string, m: nat, w: string)
    requires '\n' !in banner && i < |SplitLines(existing)| && IsSetting(SplitLines(existing)[i], k, u)
    requires LastSetting(SplitLines(existing), k, j, v) && LastSetting(SplitLines(managed), k, m, w)
    ensures var merged := SplitLines(MergeEnvContent(existing, managed, banner));
      i < |merged| && merged[i] == if w == "" && v != "" then SplitLines(existing)[i] else SplitLines(managed)[m]
  {
    MergedLineAt(existing, managed, banner, i);
    ParseLineExactly(SplitLines(existing)[i], k, u);
    LastLineCounts(SplitLines(existing), k, j, v);
    LastLineCounts(SplitLines(managed), k, m, w);
  }

  /** A comment, a line without equals sign and a line that sets an unmanaged key stay verbatim. */
  lemma OtherLineIs(existing: string, managed: string, banner: string, i: nat)
    requires '\n' !in banner && i < |SplitLines(existing)|
    requires forall k, u :: IsSetting(SplitLines(existing)[i], k, u) ==> NeverSets(SplitLines(managed), k)
    ensures var merged := SplitLines(MergeEnvContent(existing, managed, banner));
      i < |merged| && merged[i] == SplitLines(existing)[i]
  {
    MergedLineAt(existing, managed, banner, i);
    var line := ParseLine(SplitLines(existing)[i]);
    if line.key.Some? {
      ParseLineExactly(SplitLines(existing)[i], line.key.value, line.value);
      NeverSetHasNoValue(SplitLines(managed), line.key.value);
    }
  }

  // ---- What a merge adds ----

  /** The line sets a key that none of the existing lines sets. */
  ghost predicate SetsNew(raw: string, existing: seq<string>) {
    exists k, v :: IsSetting(raw, k, v) && NeverSets(existing, k)
  }

  /** The managed lines that set a new key, in order. */
  ghost function NewSettings(managed: seq<string>, existing: seq<string>): seq<string> {
    if managed == [] then []
    else
      NewSettings(managed[..|managed| - 1], existing)
      + if SetsNew(managed[|managed| - 1], existing) then [managed[|managed| - 1]] else []
  }

  lemma DefinedExactly(raws: seq<string>, k: string)
    ensures k in Values(ParseLines(raws)) <==> !NeverSets(raws, k)
  {
    if NeverSets(raws, k) {
      NeverSetHasNoValue(raws, k);
    } else {
      var m, u :| 0 <= m < |raws| && IsSetting(raws[m], k, u);
      KeyExactly(raws[m], k);
      KeyIsDefined(ParseLines(raws), m);
    }
  }

  lemma SetsNewExactly(raw: string, existing: seq<string>)
    ensures SetsNew(raw, existing) <==>
            ParseLine(raw).key.Some? && ParseLine(raw).key.value !in Values(ParseLines(existing))
  {
    var line := ParseLine(raw);
    if line.key.Some? {
      KeyExactly(raw, line.key.value);
      DefinedExactly(existing, line.key.value);
    }
    if k, v :| IsSetting(raw, k, v) && NeverSets(existing, k) {
      ParseLineExactly(raw, k, v);
    }
  }

  lemma {:induction false} MissingAreNew(managed: seq<string>, existing: seq<string>)
    ensures Raws(Missing(ParseLines(managed), Values(ParseLines(existing)).Keys)) == NewSettings(managed, existing)
  {
    var lines, present := ParseLines(managed), Values(ParseLines(existing)).Keys;
    if managed == [] {
    } else {
      var n := |managed| - 1;
      assert lines[..n] == ParseLines(managed[..n]);
      MissingAreNew(managed[..n], existing);
      SetsNewExactly(managed[n], existing);
      RawsConcat(Missing(lines[..n], present), [lines[n]]);
      assert Raws([lines[n]]) == [managed[n]];
    }
  }

  lemma HeaderRaws(banner: string)
    requires '\n' !in banner
    ensures Raws(Header(banner)) == ["", "#" + banner]
  {
  }

  /** The lines that follow the existing ones, before they are printed. */
  lemma AppendedRaws(existing: string, managed: string, banner: string)
    requires '\n' !in banner
    ensures var e, m := ParseEnvLines(existing), ParseEnvLines(managed);
      var added := NewSettings(SplitLines(managed), SplitLines(existing));
      Raws(Appended(MergedLines(e, ByKey(m), Values(e)), m, Header(banner)))
      == if added == [] then [] else ["", "#" + banner] + added
  {
    var e, m := ParseEnvLines(existing), ParseEnvLines(managed);
    MergedLinesValues(e, ByKey(m), Values(e));
    MissingAreNew(SplitLines(managed), SplitLines(existing));
    HeaderRaws(banner);
    RawsConcat(Header(banner), Missing(m, Values(e).Keys));
  }

  lemma DropPrefix<T>(a: seq<T>, b: seq<T>)
    ensures (a + b)[|a|..] == b
  {
  }

  lemma RawsOfParsed(content: string)
    ensures Raws(ParseEnvLines(content)) == SplitLines(content)
  {
  }

  lemma RawsOfThree(first: seq<EnvLine>, second: seq<EnvLine>, last: EnvLine)
    ensures Raws(first + second + [last]) == Raws(first) + (Raws(second) + [last.raw])
  {
  }

  lemma MergedRaws(existing: string, managed: string, banner: string)
    requires '\n' !in banner
    ensures var e, m := ParseEnvLines(existing), ParseEnvLines(managed);
      var kept := MergedLines(e, ByKey(m), Values(e));
      SplitLines(MergeEnvContent(existing, managed, banner))
      == Raws(kept) + (Raws(Appended(kept, m, Header(banner))) + [""])
  {
    var e, m := ParseEnvLines(existing), ParseEnvLines(managed);
    var kept := MergedLines(e, ByKey(m), Values(e));
    var appended := Appended(kept, m, Header(banner));
    MergedFileLines(existing, managed, banner);
    RawsOfParsed(MergeEnvContent(existing, managed, banner));
    RawsOfThree(kept, appended, ParseLine(""));
  }

  /**
   * After the existing lines a merged file has the managed lines that set new keys, in their order,
   * under an empty line and the comment - or nothing when there are none - and one empty line.
   */
  lemma AddedLinesAre(existing: string, managed: string, banner: string)
    requires '\n' !in banner
    ensures var e, merged := SplitLines(existing), SplitLines(MergeEnvContent(existing, managed, banner));
      var added := NewSettings(SplitLines(managed), e);
      |merged| > |e| && merged[|e|..] == (if added == [] then [] else ["", "#" + banner] + added) + [""]
  {
    var e, m := ParseEnvLines(existing), ParseEnvLines(managed);
    var kept := MergedLines(e, ByKey(m), Values(e));
    var appended := Appended(kept, m, Header(banner));
    MergedRaws(existing, managed, banner);
    AppendedRaws(existing, managed, banner);
    DropPrefix(Raws(kept), Raws(appended) + [""]);
  }
}
