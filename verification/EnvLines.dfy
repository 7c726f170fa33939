/** Merging settings line by line: what the merged lines define, whatever text they came from. */
module EnvLines {
  import opened Prelude

  /** A parsed line; a comment, a blank or a line without "=" has no key. */
  datatype EnvLine = EnvLine(key: Option<string>, value: string, raw: string)

  /** Key to value over a list of lines; the last occurrence wins. */
  function Values(lines: seq<EnvLine>): map<string, string> {
    if lines == [] then map[]
    else
      var l := lines[|lines| - 1];
      var before := Values(lines[..|lines| - 1]);
      match l.key case None => before case Some(k) => before[k := l.value]
  }

  lemma {:induction false} ValuesConcat(xs: seq<EnvLine>, ys: seq<EnvLine>)
    ensures Values(xs + ys) == Values(xs) + Values(ys)
  {
    if ys == [] {
      assert xs + ys == xs;
    } else {
      assert (xs + ys)[..|xs + ys| - 1] == xs + ys[..|ys| - 1];
      ValuesConcat(xs, ys[..|ys| - 1]);
    }
  }

  /** The last managed line of each key. */
  function ByKey(lines: seq<EnvLine>): (m: map<string, EnvLine>)
    ensures forall k :: k in m ==> m[k] in lines && m[k].key == Some(k)
  {
    if lines == [] then map[]
    else
      var l := lines[|lines| - 1];
      var before := ByKey(lines[..|lines| - 1]);
      match l.key case None => before case Some(k) => before[k := l]
  }

  lemma {:induction false} ByKeyIsValues(lines: seq<EnvLine>)
    ensures ByKey(lines).Keys == Values(lines).Keys
    ensures forall k :: k in ByKey(lines) ==> ByKey(lines)[k].value == Values(lines)[k]
  {
    if lines == [] {
    } else {
      ByKeyIsValues(lines[..|lines| - 1]);
    }
  }

  /** An empty wizard value does not wipe a setting the file ends up with. */
  predicate KeepsUserValue(entry: EnvLine, k: string, existing: map<string, string>) {
    entry.value == "" && (if k in existing then existing[k] else "") != ""
  }

  function MergedLine(l: EnvLine, byKey: map<string, EnvLine>, existing: map<string, string>): EnvLine {
    if l.key.None? || l.key.value !in byKey then l
    else if KeepsUserValue(byKey[l.key.value], l.key.value, existing) then l
    else byKey[l.key.value]
  }

  function MergedLines(lines: seq<EnvLine>, byKey: map<string, EnvLine>, existing: map<string, string>)
    : (out: seq<EnvLine>)
    ensures |out| == |lines|
    ensures forall i :: 0 <= i < |lines| ==> out[i] == MergedLine(lines[i], byKey, existing)
  {
    if lines == [] then []
    else MergedLines(lines[..|lines| - 1], byKey, existing) + [MergedLine(lines[|lines| - 1], byKey, existing)]
  }

  /** The managed lines whose key is not present. */
  function Missing(lines: seq<EnvLine>, present: set<string>): (out: seq<EnvLine>)
    ensures forall l :: l in out <==> l in lines && l.key.Some? && l.key.value !in present
  {
    if lines == [] then []
    else
      var l := lines[|lines| - 1];
      var before := Missing(lines[..|lines| - 1], present);
      if l.key.Some? && l.key.value !in present then before + [l] else before
  }

  function Appended(out: seq<EnvLine>, managed: seq<EnvLine>, header: seq<EnvLine>): seq<EnvLine> {
    var missing := Missing(managed, Values(out).Keys);
    if missing == [] then [] else header + missing
  }

  /** The merged lines, before they are printed. */
  function MergeLines(existing: seq<EnvLine>, managed: seq<EnvLine>, header: seq<EnvLine>): seq<EnvLine> {
    var out := MergedLines(existing, ByKey(managed), Values(existing));
    out + Appended(out, managed, header)
  }

  // ---- What a merge means ----

  /** The wizard's value, unless it is empty and the file's is not; the file's value for other keys. */
  function MergedValues(existing: map<string, string>, managed: map<string, string>): map<string, string> {
    map k | k in existing.Keys + managed.Keys ::
      if k in managed && !(managed[k] == "" && k in existing && existing[k] != "") then managed[k]
      else if k in existing then existing[k] else ""
  }

  /** The merged lines define the same keys as before, managed ones with the wizard's value. */
  lemma {:induction false} MergedLinesValues(
      lines: seq<EnvLine>, byKey: map<string, EnvLine>, existing: map<string, string>)
    requires forall k :: k in byKey ==> byKey[k].key == Some(k)
    ensures Values(MergedLines(lines, byKey, existing)).Keys == Values(lines).Keys
    ensures forall k :: k in Values(lines) ==>
              Values(MergedLines(lines, byKey, existing))[k]
              == if k in byKey && !KeepsUserValue(byKey[k], k, existing) then byKey[k].value else Values(lines)[k]
  {
    if lines == [] {
    } else {
      var n := |lines| - 1;
      MergedLinesValues(lines[..n], byKey, existing);
      var out := MergedLines(lines, byKey, existing);
      assert out[..n] == MergedLines(lines[..n], byKey, existing);
      assert out[n].key == lines[n].key;
    }
  }

  lemma MissingSnoc(managed: seq<EnvLine>, present: set<string>)
    requires managed != []
    ensures var n := |managed| - 1; var l := managed[n];
      Values(Missing(managed, present)) ==
        if l.key.Some? && l.key.value !in present then Values(Missing(managed[..n], present))[l.key.value := l.value]
        else Values(Missing(managed[..n], present))
  {
    var before := Missing(managed[..|managed| - 1], present);
    assert (before + [managed[|managed| - 1]])[..|before|] == before;
  }

  lemma {:induction false} MissingValues(managed: seq<EnvLine>, present: set<string>)
    ensures forall k :: k in Values(Missing(managed, present)) <==> k in Values(managed) && k !in present
    ensures forall k :: k in Values(Missing(managed, present)) ==>
              Values(Missing(managed, present))[k] == Values(managed)[k]
  {
    if managed == [] {
    } else {
      var n := |managed| - 1;
      MissingValues(managed[..n], present);
      MissingSnoc(managed, present);
    }
  }

  lemma {:induction false} NoKeysNoValues(lines: seq<EnvLine>)
    requires forall l :: l in lines ==> l.key.None?
    ensures Values(lines) == map[]
  {
    if lines == [] {
    } else {
      assert lines[|lines| - 1] in lines;
      NoKeysNoValues(lines[..|lines| - 1]);
    }
  }

  lemma AppendedValues(out: seq<EnvLine>, managed: seq<EnvLine>, header: seq<EnvLine>)
    requires forall l :: l in header ==> l.key.None?
    ensures forall k :: k in Values(Appended(out, managed, header)) <==> k in Values(managed) && k !in Values(out)
    ensures forall k :: k in Values(Appended(out, managed, header)) ==>
              Values(Appended(out, managed, header))[k] == Values(managed)[k]
  {
    var missing := Missing(managed, Values(out).Keys);
    MissingValues(managed, Values(out).Keys);
    NoKeysNoValues(header);
    ValuesConcat(header, missing);
  }

  /** Merged and appended settings together are the merged values. */
  lemma CombinedValues(
      existing: map<string, string>, managed: map<string, string>, out: map<string, string>,
      appended: map<string, string>)
    requires out.Keys == existing.Keys
    requires forall k :: k in existing ==>
               out[k] == if k in managed && !(managed[k] == "" && existing[k] != "") then managed[k] else existing[k]
    requires forall k :: k in appended <==> k in managed && k !in out
    requires forall k :: k in appended ==> appended[k] == managed[k]
    ensures out + appended == MergedValues(existing, managed)
  {
  }

  lemma MergeLinesValues(existing: seq<EnvLine>, managed: seq<EnvLine>, header: seq<EnvLine>)
    requires forall l :: l in header ==> l.key.None?
    ensures Values(MergeLines(existing, managed, header)) == MergedValues(Values(existing), Values(managed))
  {
    var out := MergedLines(existing, ByKey(managed), Values(existing));
    MergedLinesValues(existing, ByKey(managed), Values(existing));
    ByKeyIsValues(managed);
    AppendedValues(out, managed, header);
    var appended := Values(Appended(out, managed, header));
    ValuesConcat(out, Appended(out, managed, header));
    CombinedValues(Values(existing), Values(managed), Values(out), appended);
  }

  lemma MergedValuesStable(existing: map<string, string>, managed: map<string, string>)
    ensures MergedValues(MergedValues(existing, managed), managed) == MergedValues(existing, managed)
  {
  }

  // ---- Merging twice ----

  /** No key occurs twice among the managed lines. */
  ghost predicate KeysDistinct(lines: seq<EnvLine>) {
    forall i, j :: 0 <= i < j < |lines| && lines[i].key.Some? ==> lines[i].key != lines[j].key
  }

  lemma {:induction false} DistinctByKey(lines: seq<EnvLine>, i: nat)
    requires KeysDistinct(lines) && i < |lines| && lines[i].key.Some?
    ensures lines[i].key.value in ByKey(lines) && ByKey(lines)[lines[i].key.value] == lines[i]
  {
    var n := |lines| - 1;
    if i == n {
    } else {
      DistinctByKey(lines[..n], i);
    }
  }

  lemma {:induction false} KeyIsDefined(lines: seq<EnvLine>, i: nat)
    requires i < |lines| && lines[i].key.Some?
    ensures lines[i].key.value in Values(lines)
  {
    if i == |lines| - 1 {
    } else {
      KeyIsDefined(lines[..|lines| - 1], i);
    }
  }

  /** Line by line, a second merge finds nothing to replace. */
  lemma SecondMergeKeepsLine(existing: seq<EnvLine>, managed: seq<EnvLine>, header: seq<EnvLine>, l: EnvLine)
    requires forall h :: h in header ==> h.key.None?
    requires KeysDistinct(managed) && l in MergeLines(existing, managed, header)
    ensures MergedLine(l, ByKey(managed), MergedValues(Values(existing), Values(managed))) == l
  {
    var byKey := ByKey(managed);
    var out := MergedLines(existing, byKey, Values(existing));
    ByKeyIsValues(managed);
    if l in out {
      var i :| 0 <= i < |out| && out[i] == l;
      if existing[i].key.Some? { KeyIsDefined(existing, i); }
    } else if l in managed && l.key.Some? {
      var i :| 0 <= i < |managed| && managed[i] == l;
      DistinctByKey(managed, i);
    }
  }

  lemma NothingMissing(lines: seq<EnvLine>, managed: seq<EnvLine>)
    requires Values(managed).Keys <= Values(lines).Keys
    ensures Missing(managed, Values(lines).Keys) == []
  {
    var missing := Missing(managed, Values(lines).Keys);
    if missing != [] {
      var l := missing[0];
      assert l in missing;
      var i :| 0 <= i < |managed| && managed[i] == l;
      KeyIsDefined(managed, i);
      assert false;
    }
  }

  lemma SecondMergeKeepsLines(existing: seq<EnvLine>, managed: seq<EnvLine>, header: seq<EnvLine>, end: EnvLine)
    requires KeysDistinct(managed) && end.key.None? && forall h :: h in header ==> h.key.None?
    ensures var once := MergeLines(existing, managed, header) + [end]; MergeLines(once, managed, header) == once
  {
    var lines := MergeLines(existing, managed, header);
    var once := lines + [end];
    MergeLinesValues(existing, managed, header);
    ValuesConcat(lines, [end]);
    NoKeysNoValues([end]);
    var out := MergedLines(once, ByKey(managed), Values(once));
    forall i | 0 <= i < |once|
      ensures out[i] == once[i]
    {
      if i < |lines| { SecondMergeKeepsLine(existing, managed, header, lines[i]); }
    }
    assert out == once;
    NothingMissing(once, managed);
  }
}
