/** The text of a .env file: splitting and joining lines, and parsing one line. */
module EnvText {
  import opened Prelude
  import opened JsText
  import opened EnvLines

  // ---- Lines ----

  /** content.split("\n"): always at least one line. */
  function SplitLines(s: string): (lines: seq<string>)
    ensures lines != []
    ensures forall l :: l in lines ==> '\n' !in l
  {
    if s == "" then [""]
    else
      var rest := SplitLines(s[1..]);
      if s[0] == '\n' then [""] + rest else [[s[0]] + rest[0]] + rest[1..]
  }

  function JoinLines(lines: seq<string>): string {
    if lines == [] then ""
    else if |lines| == 1 then lines[0]
    else lines[0] + "\n" + JoinLines(lines[1..])
  }

  lemma {:induction false} JoinSplit(s: string)
    ensures JoinLines(SplitLines(s)) == s
  {
    if s != "" {
      JoinSplit(s[1..]);
      var rest := SplitLines(s[1..]);
      var all := SplitLines(s);
      assert s == [s[0]] + s[1..];
      if s[0] == '\n' {
        assert all[1..] == rest;
      } else {
        assert all[1..] == rest[1..];
        if |rest| > 1 {
          assert [s[0]] + rest[0] + "\n" + JoinLines(rest[1..]) == [s[0]] + (rest[0] + "\n" + JoinLines(rest[1..]));
        }
      }
    }
  }

  /** A line followed by more text after a line feed. */
  lemma {:induction false} SplitFirstLine(line: string, more: string)
    requires '\n' !in line
    ensures SplitLines(line + "\n" + more) == [line] + SplitLines(more)
    ensures SplitLines(line) == [line]
  {
    if line == "" {
      assert line + "\n" + more == "\n" + more && ("\n" + more)[1..] == more;
    } else {
      var s := line + "\n" + more;
      assert line[0] in line;
      assert s[0] == line[0] && s[1..] == line[1..] + "\n" + more;
      SplitFirstLine(line[1..], more);
      assert [line[0]] + line[1..] == line;
      assert ([line[1..]] + SplitLines(more))[1..] == SplitLines(more);
      assert [line[1..]][1..] == [];
    }
  }

  lemma {:induction false} SplitJoin(lines: seq<string>)
    requires lines != [] && forall l :: l in lines ==> '\n' !in l
    ensures SplitLines(JoinLines(lines)) == lines
  {
    assert lines[0] in lines;
    if |lines| == 1 {
      SplitFirstLine(lines[0], "");
    } else {
      SplitJoin(lines[1..]);
      SplitFirstLine(lines[0], JoinLines(lines[1..]));
    }
  }

  /** A final line feed adds an empty last line. */
  lemma {:induction false} JoinTrailing(lines: seq<string>)
    requires lines != []
    ensures JoinLines(lines) + "\n" == JoinLines(lines + [""])
  {
    var more := lines + [""];
    if |lines| == 1 {
      assert more[1..] == [""];
      assert lines[0] + "\n" + "" == lines[0] + "\n";
    } else {
      JoinTrailing(lines[1..]);
      assert more[1..] == lines[1..] + [""];
      assert lines[0] + "\n" + JoinLines(lines[1..]) + "\n" == lines[0] + "\n" + (JoinLines(lines[1..]) + "\n");
    }
  }

  // ---- Parsing ----

  function ParseLine(raw: string): (l: EnvLine)
    ensures l.raw == raw
  {
    var t := Trim(raw);
    if t == "" || t[0] == '#' then EnvLine(None, "", raw)
    else
      var eq := IndexOf(t, '=');
      if eq < 0 then EnvLine(None, "", raw)
      else EnvLine(Some(Trim(t[..eq])), Trim(t[eq + 1..]), raw)
  }

  function ParseLines(raws: seq<string>): (lines: seq<EnvLine>)
    ensures |lines| == |raws|
    ensures forall i :: 0 <= i < |raws| ==> lines[i] == ParseLine(raws[i])
  {
    seq(|raws|, i requires 0 <= i < |raws| => ParseLine(raws[i]))
  }

  function Raws(lines: seq<EnvLine>): (raws: seq<string>)
    ensures |raws| == |lines|
    ensures forall i :: 0 <= i < |lines| ==> raws[i] == lines[i].raw
  {
    seq(|lines|, i requires 0 <= i < |lines| => lines[i].raw)
  }

  function ParseEnvLines(content: string): seq<EnvLine> {
    ParseLines(SplitLines(content))
  }

  /** A line that is what parsing its own text gives, on one line. */
  predicate Genuine(l: EnvLine) {
    l == ParseLine(l.raw) && '\n' !in l.raw
  }

  lemma ParsedLinesAreGenuine(content: string)
    ensures forall l :: l in ParseEnvLines(content) ==> Genuine(l)
  {
    forall i | 0 <= i < |ParseEnvLines(content)|
      ensures Genuine(ParseEnvLines(content)[i])
    {
      assert SplitLines(content)[i] in SplitLines(content);
    }
  }

  /** Printing genuine lines, each ended by a line feed, and parsing them again adds one empty line. */
  lemma PrintParse(lines: seq<EnvLine>)
    requires lines != [] && forall l :: l in lines ==> Genuine(l)
    ensures ParseEnvLines(JoinLines(Raws(lines)) + "\n") == lines + [ParseLine("")]
  {
    var raws := Raws(lines);
    forall r | r in raws + [""]
      ensures '\n' !in r
    {
      if r in raws {
        var i :| 0 <= i < |raws| && raws[i] == r;
        assert Genuine(lines[i]);
      }
    }
    JoinTrailing(raws);
    SplitJoin(raws + [""]);
    forall i | 0 <= i < |lines|
      ensures ParseLine((raws + [""])[i]) == lines[i]
    {
      assert Genuine(lines[i]);
    }
  }

  /** Printing what was parsed gives the text back. */
  lemma ParsePrint(content: string)
    ensures JoinLines(Raws(ParseEnvLines(content))) == content
  {
    assert Raws(ParseEnvLines(content)) == SplitLines(content);
    JoinSplit(content);
  }

  /** A comment line defines no key. */
  lemma CommentHasNoKey(text: string)
    ensures ParseLine("#" + text).key.None?
  {
    var raw := "#" + text;
    assert raw[0] == '#' && TrimStart(raw) == raw;
    var t := TrimEnd(raw);
    TrimEndIs(raw);
    assert |t| > 0 && t[0] == '#';
  }

  lemma ParsedIsGenuine(raw: string)
    requires '\n' !in raw
    ensures Genuine(ParseLine(raw)) && ParseLine(raw).raw == raw
  {
  }

  lemma EmptyHasNoKey()
    ensures ParseLine("").key.None?
  {
    assert TrimStart("") == "";
  }

  /** What separates the appended settings from the user's own lines: an empty line and a comment. */
  function Header(banner: string): (h: seq<EnvLine>)
    requires '\n' !in banner
    ensures forall l :: l in h ==> l.key.None? && Genuine(l)
  {
    CommentHasNoKey(banner);
    EmptyHasNoKey();
    ParsedIsGenuine("");
    ParsedIsGenuine("#" + banner);
    [ParseLine(""), ParseLine("#" + banner)]
  }
}
