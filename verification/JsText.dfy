/** JavaScript string primitives on sequences of characters: trim and indexOf. */
module JsText {

  /** The white space and line terminators that String.prototype.trim removes. */
  predicate IsSpace(c: char) {
    var n := c as int;
    || 9 <= n <= 13 || n == 0x20 || n == 0xA0 || n == 0x1680 || 0x2000 <= n <= 0x200A
    || n == 0x2028 || n == 0x2029 || n == 0x202F || n == 0x205F || n == 0x3000 || n == 0xFEFF
  }

  function TrimStart(s: string): (t: string)
    ensures |t| <= |s|
    ensures t != "" ==> !IsSpace(t[0])
  {
    if s != "" && IsSpace(s[0]) then TrimStart(s[1..]) else s
  }

  function TrimEnd(s: string): (t: string)
    ensures |t| <= |s|
    ensures t != "" ==> !IsSpace(t[|t| - 1])
  {
    if s != "" && IsSpace(s[|s| - 1]) then TrimEnd(s[..|s| - 1]) else s
  }

  function Trim(s: string): string {
    TrimEnd(TrimStart(s))
  }

  /** What is cut off in front is white space. */
  lemma {:induction false} TrimStartIs(s: string)
    ensures var t := TrimStart(s);
      t == s[|s| - |t|..] && forall i :: 0 <= i < |s| - |t| ==> IsSpace(s[i])
  {
    if s != "" && IsSpace(s[0]) {
      TrimStartIs(s[1..]);
      assert s == [s[0]] + s[1..];
    }
  }

  /** What is cut off at the end is white space. */
  lemma {:induction false} TrimEndIs(s: string)
    ensures var t := TrimEnd(s);
      t == s[..|t|] && forall i :: |t| <= i < |s| ==> IsSpace(s[i])
  {
    if s != "" && IsSpace(s[|s| - 1]) {
      TrimEndIs(s[..|s| - 1]);
      assert s == s[..|s| - 1] + [s[|s| - 1]];
    }
  }

  /** The first occurrence of c, or -1. */
  function IndexOf(s: string, c: char): (i: int)
    ensures -1 <= i < |s|
    ensures i >= 0 ==> s[i] == c
  {
    if s == "" then -1
    else if s[0] == c then 0
    else
      var rest := IndexOf(s[1..], c);
      if rest < 0 then -1 else rest + 1
  }

  /** It is the first one, and there is none when it is -1. */
  lemma {:induction false} IndexOfFirst(s: string, c: char)
    ensures IndexOf(s, c) >= 0 ==> c !in s[..IndexOf(s, c)]
    ensures IndexOf(s, c) < 0 ==> c !in s
  {
    if s != "" && s[0] != c {
      IndexOfFirst(s[1..], c);
      var rest := IndexOf(s[1..], c);
      assert s == [s[0]] + s[1..];
      if rest >= 0 {
        assert s[..rest + 1] == [s[0]] + s[1..][..rest];
      }
    }
  }

  lemma IndexOfIs(s: string, c: char, i: nat)
    requires i < |s| && s[i] == c && c !in s[..i]
    ensures IndexOf(s, c) == i
  {
    var k := IndexOf(s, c);
    IndexOfFirst(s, c);
    assert forall j :: 0 <= j < i ==> s[..i][j] == s[j];
    assert k < 0 || forall j :: 0 <= j < k ==> s[..k][j] == s[j];
  }
}
