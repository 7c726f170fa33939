/**
 * Merging the setup wizard's settings into an existing .env file. `banner` is the
 * one-line comment text put above settings that the file did not have yet.
 */
module EnvMerge {
  import opened Prelude
  import opened EnvLines
  import opened EnvText

  function EnvValues(content: string): map<string, string> {
    Values(ParseEnvLines(content))
  }

  function MergeEnvContent(existing: string, managed: string, banner: string): string
    requires '\n' !in banner
  {
    JoinLines(Raws(MergeLines(ParseEnvLines(existing), ParseEnvLines(managed), Header(banner)))) + "\n"
  }

  // ---- The loops ----

  method ReadEnvValues(lines: seq<EnvLine>) returns (values: map<string, string>)
    ensures values == Values(lines)
  {
    values := map[];
    for i := 0 to |lines|
      invariant values == Values(lines[..i])
    {
      assert lines[..i + 1][..i] == lines[..i];
      if lines[i].key.Some? { values := values[lines[i].key.value := lines[i].value]; }
    }
    assert lines[..|lines|] == lines;
  }

  method ManagedEntriesByKey(lines: seq<EnvLine>) returns (byKey: map<string, EnvLine>)
    ensures byKey == ByKey(lines)
  {
    byKey := map[];
    for i := 0 to |lines|
      invariant byKey == ByKey(lines[..i])
    {
      assert lines[..i + 1][..i] == lines[..i];
      if lines[i].key.Some? { byKey := byKey[lines[i].key.value := lines[i]]; }
    }
    assert lines[..|lines|] == lines;
  }

  method MergeExistingLines(lines: seq<EnvLine>, byKey: map<string, EnvLine>, values: map<string, string>)
      returns (out: seq<string>)
    ensures out == Raws(MergedLines(lines, byKey, values))
  {
    out := [];
    for i := 0 to |lines|
      invariant |out| == i && forall k :: 0 <= k < i ==> out[k] == MergedLine(lines[k], byKey, values).raw
    {
      var line := lines[i];
      if line.key.None? || line.key.value !in byKey {
        out := out + [line.raw];
        continue;
      }
      var keep := KeepsUserValue(byKey[line.key.value], line.key.value, values);
      out := out + [if keep then line.raw else byKey[line.key.value].raw];
    }
  }

  /** The key a written line defines, read back from its text. */
  function EnvKeyOfLine(raw: string): Option<string> {
    ParseLine(raw).key
  }

  lemma KeysSoFar(lines: seq<EnvLine>, i: nat)
    requires i < |lines|
    ensures Values(lines[..i + 1]).Keys
         == Values(lines[..i]).Keys + if lines[i].key.Some? then {lines[i].key.value} else {}
  {
    assert lines[..i + 1][..i] == lines[..i];
  }

  method PresentKeys(before: seq<string>, ghost lines: seq<EnvLine>) returns (present: set<string>)
    requires |before| == |lines| && forall i :: 0 <= i < |lines| ==> EnvKeyOfLine(before[i]) == lines[i].key
    ensures present == Values(lines).Keys
  {
    present := {};
    for i := 0 to |before|
      invariant present == Values(lines[..i]).Keys
    {
      KeysSoFar(lines, i);
      var key := EnvKeyOfLine(before[i]);
      assert key == lines[i].key;
      if key.Some? { present := present + {key.value}; }
    }
    assert lines[..|before|] == lines;
  }

  /** Pushes the missing settings, under the header, onto the lines written so far. */
  method AppendMissingManagedKeys(
      before: seq<string>, present: set<string>, managed: seq<EnvLine>, header: seq<EnvLine>)
    returns (out: seq<string>)
    ensures var missing := Missing(managed, present);
      out == before + (if missing == [] then [] else Raws(header) + Raws(missing))
  {
    var missing := Missing(managed, present);
    if |missing| == 0 { return before; }
    out := before + Raws(header);
    for i := 0 to |missing|
      invariant out == before + Raws(header) + Raws(missing)[..i]
    {
      out := out + [missing[i].raw];
    }
    assert Raws(missing)[..|missing|] == Raws(missing);
    assert before + Raws(header) + Raws(missing) == before + (Raws(header) + Raws(missing));
  }

  lemma GenuineMergedLines(e: seq<EnvLine>, m: seq<EnvLine>, l: EnvLine)
    requires l in MergedLines(e, ByKey(m), Values(e))
    ensures l in e || l in m
  {
    var out := MergedLines(e, ByKey(m), Values(e));
    var i :| 0 <= i < |out| && out[i] == l;
    assert e[i] in e;
  }

  lemma MergedLinesAreGenuine(existing: string, managed: string)
    ensures var e, m := ParseEnvLines(existing), ParseEnvLines(managed);
      forall l :: l in MergedLines(e, ByKey(m), Values(e)) ==> Genuine(l)
  {
    var e, m := ParseEnvLines(existing), ParseEnvLines(managed);
    ParsedLinesAreGenuine(existing);
    ParsedLinesAreGenuine(managed);
    forall l | l in MergedLines(e, ByKey(m), Values(e))
      ensures Genuine(l)
    {
      GenuineMergedLines(e, m, l);
    }
  }

  lemma RawsKeepKeys(lines: seq<EnvLine>)
    requires forall l :: l in lines ==> Genuine(l)
    ensures forall i :: 0 <= i < |lines| ==> EnvKeyOfLine(Raws(lines)[i]) == lines[i].key
  {
    forall i | 0 <= i < |lines|
      ensures EnvKeyOfLine(Raws(lines)[i]) == lines[i].key
    {
      assert Genuine(lines[i]);
    }
  }

  lemma RawsConcat(xs: seq<EnvLine>, ys: seq<EnvLine>)
    ensures Raws(xs + ys) == Raws(xs) + Raws(ys)
  {
  }

  method Merge(existing: string, managed: string, banner: string) returns (content: string)
    requires '\n' !in banner
    ensures content == MergeEnvContent(existing, managed, banner)
  {
    var e, m := ParseEnvLines(existing), ParseEnvLines(managed);
    var byKey := ManagedEntriesByKey(m);
    var values := ReadEnvValues(e);
    var merged := MergeExistingLines(e, byKey, values);
    ghost var lines := MergedLines(e, byKey, values);
    MergedLinesAreGenuine(existing, managed);
    RawsKeepKeys(lines);
    var present := PresentKeys(merged, lines);
    var out := AppendMissingManagedKeys(merged, present, m, Header(banner));
    RawsConcat(lines, Appended(lines, m, Header(banner)));
    RawsConcat(Header(banner), Missing(m, present));
    content := JoinLines(out) + "\n";
  }

  // ---- What a merge means ----

  lemma HeaderIsGenuine(banner: string)
    requires '\n' !in banner
    ensures forall l :: l in Header(banner) ==> Genuine(l)
  {
  }

  lemma AppendedAreGenuine(out: seq<EnvLine>, managed: seq<EnvLine>, header: seq<EnvLine>)
    requires (forall l :: l in managed ==> Genuine(l)) && (forall l :: l in header ==> Genuine(l))
    ensures forall l :: l in Appended(out, managed, header) ==> Genuine(l)
  {
  }

  lemma MergeLinesAreGenuine(existing: string, managed: string, banner: string)
    requires '\n' !in banner
    ensures var lines := MergeLines(ParseEnvLines(existing), ParseEnvLines(managed), Header(banner));
      lines != [] && forall l :: l in lines ==> Genuine(l)
  {
    var e, m := ParseEnvLines(existing), ParseEnvLines(managed);
    MergedLinesAreGenuine(existing, managed);
    ParsedLinesAreGenuine(managed);
    HeaderIsGenuine(banner);
    AppendedAreGenuine(MergedLines(e, ByKey(m), Values(e)), m, Header(banner));
    assert |e| > 0;
  }

  /** The merged file parses back into exactly the merged lines and one empty line. */
  lemma MergedFileLines(existing: string, managed: string, banner: string)
    requires '\n' !in banner
    ensures ParseEnvLines(MergeEnvContent(existing, managed, banner))
         == MergeLines(ParseEnvLines(existing), ParseEnvLines(managed), Header(banner)) + [ParseLine("")]
  {
    MergeLinesAreGenuine(existing, managed, banner);
    PrintParse(MergeLines(ParseEnvLines(existing), ParseEnvLines(managed), Header(banner)));
  }

  lemma BlankHasNoKey()
    ensures ParseLine("").key.None?
  {
  }

  /**
   * The meaning of a merge: reading the merged file gives, for each key the wizard
   * manages, the wizard's value unless that is empty and the file's last value is not,
   * and for every other key the file's value.
   */
  lemma MergeMeaning(existing: string, managed: string, banner: string)
    requires '\n' !in banner
    ensures EnvValues(MergeEnvContent(existing, managed, banner))
         == MergedValues(EnvValues(existing), EnvValues(managed))
  {
    var lines := MergeLines(ParseEnvLines(existing), ParseEnvLines(managed), Header(banner));
    MergedFileLines(existing, managed, banner);
    MergeLinesValues(ParseEnvLines(existing), ParseEnvLines(managed), Header(banner));
    BlankHasNoKey();
    ValuesConcat(lines, [ParseLine("")]);
    NoKeysNoValues([ParseLine("")]);
  }

  /** Every line the wizard does not manage - comments and blanks included - stays in its place verbatim. */
  lemma UnmanagedLinesSurvive(existing: string, managed: string, banner: string, i: nat)
    requires '\n' !in banner && i < |ParseEnvLines(existing)|
    requires var k := ParseEnvLines(existing)[i].key; k.None? || k.value !in EnvValues(managed)
    ensures i < |ParseEnvLines(MergeEnvContent(existing, managed, banner))|
    ensures ParseEnvLines(MergeEnvContent(existing, managed, banner))[i] == ParseEnvLines(existing)[i]
  {
    MergedFileLines(existing, managed, banner);
    ByKeyIsValues(ParseEnvLines(managed));
  }

  /** Running the wizard again with the same answers changes no value. */
  lemma MergeAgainKeepsValues(existing: string, managed: string, banner: string)
    requires '\n' !in banner
    ensures EnvValues(MergeEnvContent(MergeEnvContent(existing, managed, banner), managed, banner))
         == EnvValues(MergeEnvContent(existing, managed, banner))
  {
    var once := MergeEnvContent(existing, managed, banner);
    MergeMeaning(existing, managed, banner);
    MergeMeaning(once, managed, banner);
    MergedValuesStable(EnvValues(existing), EnvValues(managed));
  }

  /**
   * Each further run of the wizard lengthens the file by exactly one empty line
   * (for wizard settings without duplicate keys): values are stable, the text is not.
   */
  lemma MergeAgainAddsOneLine(existing: string, managed: string, banner: string)
    requires '\n' !in banner && KeysDistinct(ParseEnvLines(managed))
    ensures MergeEnvContent(MergeEnvContent(existing, managed, banner), managed, banner)
         == MergeEnvContent(existing, managed, banner) + "\n"
  {
    var once := MergeEnvContent(existing, managed, banner);
    MergedFileLines(existing, managed, banner);
    BlankHasNoKey();
    SecondMergeKeepsLines(ParseEnvLines(existing), ParseEnvLines(managed), Header(banner), ParseLine(""));
    ParsePrint(once);
  }
}
