/** White space and stripping of strings. Only the ASCII white space that Python's strip() removes is modelled. */
module Text {
  predicate IsSpace(c: char) {
    c == ' ' || c == '\t' || c == '\n' || c == '\r' || c == '\U{000B}' || c == '\U{000C}'
  }

  /** Nothing is left after stripping. */
  predicate Blank(s: string) { forall i :: 0 <= i < |s| ==> IsSpace(s[i]) }

  function StripLeft(s: string): string {
    if s == "" || !IsSpace(s[0]) then s else StripLeft(s[1..])
  }

  function StripRight(s: string): string {
    if s == "" || !IsSpace(s[|s| - 1]) then s else StripRight(s[..|s| - 1])
  }

  function Strip(s: string): string { StripRight(StripLeft(s)) }

  lemma BlankConcat(a: string, b: string)
    ensures Blank(a + b) <==> Blank(a) && Blank(b)
  {
    if Blank(a + b) {
      forall i | 0 <= i < |a| ensures IsSpace(a[i]) { assert (a + b)[i] == a[i]; }
      forall i | 0 <= i < |b| ensures IsSpace(b[i]) { assert (a + b)[|a| + i] == b[i]; }
    }
  }

  /** Stripping on the left stops inside `a` or passes over it to a solid `b`. */
  lemma {:induction false} StripLeftConcat(a: string, b: string)
    requires b != "" && !IsSpace(b[0])
    ensures StripLeft(a + b) == StripLeft(a) + b
    decreases |a|
  {
    if a == "" {
      assert a + b == b;
    } else if IsSpace(a[0]) {
      assert (a + b)[1..] == a[1..] + b;
      StripLeftConcat(a[1..], b);
    }
  }

  lemma {:induction false} StripRightConcat(a: string, b: string)
    requires a != "" && !IsSpace(a[|a| - 1])
    ensures StripRight(a + b) == a + StripRight(b)
    decreases |b|
  {
    if b == "" {
      assert a + b == a;
    } else if IsSpace(b[|b| - 1]) {
      assert (a + b)[..|a + b| - 1] == a + b[..|b| - 1];
      StripRightConcat(a, b[..|b| - 1]);
    }
  }

  /** A solid middle survives stripping; only the outer ends are trimmed. */
  lemma StripAround(pre: string, core: string, post: string)
    requires core != "" && !IsSpace(core[0]) && !IsSpace(core[|core| - 1])
    ensures Strip(pre + core + post) == StripLeft(pre) + core + StripRight(post)
  {
    assert pre + core + post == pre + (core + post);
    StripLeftConcat(pre, core + post);
    var left := StripLeft(pre) + core;
    assert StripLeft(pre) + (core + post) == left + post;
    StripRightConcat(left, post);
  }

  lemma {:induction false} StripLeftIsSuffix(s: string)
    ensures |StripLeft(s)| <= |s| && StripLeft(s) == s[|s| - |StripLeft(s)|..]
    decreases |s|
  {
    if s != "" && IsSpace(s[0]) {
      StripLeftIsSuffix(s[1..]);
      var n := |StripLeft(s)|;
      assert s[1..][|s| - 1 - n..] == s[|s| - n..];
    }
  }

  lemma {:induction false} StripRightIsPrefix(s: string)
    ensures |StripRight(s)| <= |s| && StripRight(s) == s[..|StripRight(s)|]
    decreases |s|
  {
    if s != "" && IsSpace(s[|s| - 1]) { StripRightIsPrefix(s[..|s| - 1]); }
  }

  /** Stripping leaves a stretch of the text, from some position `d` on. */
  lemma {:induction false} StripIsInside(s: string) returns (d: nat)
    ensures d + |Strip(s)| <= |s| && forall k :: 0 <= k < |Strip(s)| ==> Strip(s)[k] == s[d + k]
  {
    var left := StripLeft(s);
    StripLeftIsSuffix(s);
    StripRightIsPrefix(left);
    d := |s| - |left|;
    forall k | 0 <= k < |Strip(s)| ensures Strip(s)[k] == s[d + k] {
      assert Strip(s)[k] == left[k] == s[d..][k];
    }
  }

  lemma {:induction false} BlankStrips(s: string)
    requires Blank(s)
    ensures StripLeft(s) == "" && StripRight(s) == ""
    decreases |s|
  {
    if s != "" {
      BlankStrips(s[1..]);
      BlankStrips(s[..|s| - 1]);
    }
  }
}
