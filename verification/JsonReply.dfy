/**
 Extracting a JSON object from a model's reply (app/ai/providers/shared.py): a direct parse, a
 Markdown code fence, and a scan for the first balanced brace block. `loads` stands for the JSON
 parser; of it only this is used, that it reads back the one object a reply is about.
 */
module JsonReply {
  import opened Wrappers
  import opened JsonText
  import opened Text

  predicate NoBraces(s: string) { forall i :: 0 <= i < |s| ==> s[i] != '{' && s[i] != '}' }

  /** No string in the value contains a brace. */
  predicate BraceFree(j: Json)
    decreases j
  {
    match j
    case Str(text) => NoBraces(text)
    case Arr(elements) => forall i :: 0 <= i < |elements| ==> BraceFree(elements[i])
    case Obj(members) => forall i :: 0 <= i < |members| ==> NoBraces(members[i].name) && BraceFree(members[i].value)
    case _ => true
  }

  // ---- Brace depth ----------------------------------------------------------------------------

  function Weight(c: char): int { if c == '{' then 1 else if c == '}' then -1 else 0 }

  function Depth(s: string): int {
    if s == "" then 0 else Depth(s[..|s| - 1]) + Weight(s[|s| - 1])
  }

  lemma {:induction false} DepthConcat(a: string, b: string)
    ensures Depth(a + b) == Depth(a) + Depth(b)
    decreases |b|
  {
    if b == "" {
      assert a + b == a;
    } else {
      assert (a + b)[..|a + b| - 1] == a + b[..|b| - 1];
      DepthConcat(a, b[..|b| - 1]);
    }
  }

  lemma DepthFront(s: string)
    requires s != ""
    ensures Depth(s) == Weight(s[0]) + Depth(s[1..])
  {
    assert Depth([s[0]]) == Depth("") + Weight(s[0]);
    DepthConcat([s[0]], s[1..]);
    assert s == [s[0]] + s[1..];
  }

  /** Read character by character from depth `d`, the depth is above zero at the start and after each character. */
  predicate Positive(s: string, d: int) {
    d > 0 && (s == "" || Positive(s[1..], d + Weight(s[0])))
  }

  lemma {:induction false} PositiveIff(s: string, d: int)
    ensures Positive(s, d) <==> forall n :: 0 <= n <= |s| ==> d + Depth(s[..n]) > 0
    decreases |s|
  {
    assert s[..0] == "";
    if s != "" {
      var rest, e := s[1..], d + Weight(s[0]);
      PositiveIff(rest, e);
      forall n | 0 <= n < |s| ensures d + Depth(s[..n + 1]) == e + Depth(rest[..n]) {
        DepthFront(s[..n + 1]);
        assert s[..n + 1][1..] == rest[..n];
      }
      if forall n :: 0 <= n <= |s| ==> d + Depth(s[..n]) > 0 {
        forall n | 0 <= n <= |rest| ensures e + Depth(rest[..n]) > 0 { assert d + Depth(s[..n + 1]) > 0; }
      }
      if Positive(s, d) {
        forall n | 0 <= n <= |s| ensures d + Depth(s[..n]) > 0 {
          if n > 0 { assert d + Depth(s[..n - 1 + 1]) == e + Depth(rest[..n - 1]); }
        }
      }
    }
  }

  lemma {:induction false} PositiveConcat(a: string, b: string, d: int)
    ensures Positive(a + b, d) <==> Positive(a, d) && Positive(b, d + Depth(a))
    decreases |a|
  {
    if a == "" {
      assert a + b == b;
    } else {
      assert (a + b)[1..] == a[1..] + b;
      PositiveConcat(a[1..], b, d + Weight(a[0]));
      DepthFront(a);
    }
  }

  lemma {:induction false} NoBracesDepth(s: string)
    requires NoBraces(s)
    ensures Depth(s) == 0
    decreases |s|
  {
    if s != "" { NoBracesDepth(s[..|s| - 1]); }
  }

  lemma {:induction false} NoBracesPositive(s: string, d: int)
    requires NoBraces(s)
    ensures Depth(s) == 0 && (Positive(s, d) <==> d > 0)
    decreases |s|
  {
    NoBracesDepth(s);
    if s != "" { NoBracesPositive(s[1..], d); }
  }

  lemma OneBrace(d: int)
    ensures Depth("{") == 1 && (Positive("{", d) <==> d > 0)
    ensures Depth("}") == -1 && (Positive("}", d) <==> d > 1)
  {
  }

  /** Balanced: never below the starting depth, and back at it in the end. */
  predicate Balanced(s: string) {
    Depth(s) == 0 && forall n :: 0 <= n <= |s| ==> Depth(s[..n]) >= 0
  }

  /** A braced block opens at depth one, stays positive until its last brace, and closes there. */
  predicate Block(s: string) {
    && s != "" && s[0] == '{'
    && Depth(s) == 0
    && forall n :: 0 < n < |s| ==> Depth(s[..n]) > 0
  }

  lemma BlockIff(body: string)
    ensures Block("{" + body + "}") <==> Positive(body, 1) && Depth(body) == 0
  {
    var s := "{" + body + "}";
    OneBrace(0);
    PositiveIff(body, 1);
    DepthConcat("{", body);
    DepthConcat("{" + body, "}");
    forall n | 0 <= n <= |body| ensures Depth(s[..n + 1]) == 1 + Depth(body[..n]) {
      assert s[..n + 1] == "{" + body[..n];
      DepthConcat("{", body[..n]);
    }
    if Block(s) {
      forall n | 0 <= n <= |body| ensures 1 + Depth(body[..n]) > 0 { assert Depth(s[..n + 1]) > 0; }
    }
    if Positive(body, 1) && Depth(body) == 0 {
      forall n | 0 < n < |s| ensures Depth(s[..n]) > 0 { assert 1 + Depth(body[..n - 1]) > 0; }
    }
  }

  // ---- The depth of a print, from the strings of the value ------------------------------------

  /** Opening minus closing braces inside all strings of a value. */
  function Net(j: Json): int
    decreases j, 0
  {
    match j
    case Str(text) => Depth(text)
    case Arr(elements) => NetElements(elements)
    case Obj(members) => NetMembers(members)
    case _ => 0
  }

  function NetElements(es: seq<Json>): int
    decreases es, 1
  {
    if es == [] then 0 else Net(es[0]) + NetElements(es[1..])
  }

  function NetMembers(ms: seq<Member>): int
    decreases ms, 1
  {
    if ms == [] then 0 else NetMember(ms[0]) + NetMembers(ms[1..])
  }

  function NetMember(m: Member): int
    decreases m, 0
  {
    Depth(m.name) + Net(m.value)
  }

  /**
   Walk the strings of a value in the order of printing, counting their braces on top of the depth of
   nesting: starting from `d`, the count stays above zero in every string and at every closing brace.
   */
  predicate Stays(j: Json, d: int)
    decreases j, 0
  {
    match j
    case Str(text) => Positive(text, d)
    case Arr(elements) => StaysElements(elements, d)
    case Obj(members) => d > 0 && StaysMembers(members, d + 1) && d + NetMembers(members) > 0
    case _ => d > 0
  }

  predicate StaysElements(es: seq<Json>, d: int)
    decreases es, 1
  {
    d > 0 && (es == [] || (Stays(es[0], d) && StaysElements(es[1..], d + Net(es[0]))))
  }

  predicate StaysMembers(ms: seq<Member>, d: int)
    decreases ms, 1
  {
    d > 0 && (ms == [] || (StaysMember(ms[0], d) && StaysMembers(ms[1..], d + NetMember(ms[0]))))
  }

  predicate StaysMember(m: Member, d: int)
    decreases m, 0
  {
    Positive(m.name, d) && Stays(m.value, d + Depth(m.name))
  }

  /** The strings of an object take the walk down to zero only at its last brace, and cancel out overall. */
  predicate StringsBalance(o: Json)
    requires o.Obj?
  {
    StaysMembers(o.members, 1) && NetMembers(o.members) == 0
  }

  lemma EscapeOneDepth(c: char, d: int)
    ensures Depth(Escape(c)) == Depth([c]) && (Positive(Escape(c), d) <==> Positive([c], d))
  {
    if Escape(c) == [c] {
      assert Depth(Escape(c)) == Depth([c]);
    } else {
      assert NoBraces(Escape(c)) && NoBraces([c]);
      NoBracesPositive(Escape(c), d);
      NoBracesPositive([c], d);
    }
  }

  lemma {:induction false} SameDepth(a: string, b: string, a': string, b': string, d: int)
    requires Depth(a) == Depth(a') && (Positive(a, d) <==> Positive(a', d))
    requires Depth(b) == Depth(b') && (Positive(b, d + Depth(a)) <==> Positive(b', d + Depth(a)))
    ensures Depth(a + b) == Depth(a' + b') && (Positive(a + b, d) <==> Positive(a' + b', d))
  {
    DepthConcat(a, b);
    DepthConcat(a', b');
    PositiveConcat(a, b, d);
    PositiveConcat(a', b', d);
  }

  /** Escaping neither adds nor hides a brace. */
  lemma {:induction false} EscapeDepth(s: string, d: int)
    ensures Depth(EscapeAll(s)) == Depth(s) && (Positive(EscapeAll(s), d) <==> Positive(s, d))
    decreases |s|
  {
    if s != "" {
      var c, rest := s[0], s[1..];
      EscapeOneDepth(c, d);
      EscapeDepth(rest, d + Depth([c]));
      SameDepth([c], rest, Escape(c), EscapeAll(rest), d);
      assert s == [c] + rest;
    }
  }

  /** Text between two brace-free delimiters. */
  lemma Delimited(left: string, body: string, right: string, d: int)
    requires NoBraces(left) && NoBraces(right)
    ensures Depth(left + body + right) == Depth(body)
    ensures Positive(left + body + right, d) <==> Positive(body, d)
  {
    NoBracesPositive(left, d);
    NoBracesPositive(right, d + Depth(body));
    DepthConcat(left, body);
    DepthConcat(left + body, right);
    PositiveConcat(left, body, d);
    PositiveConcat(left + body, right, d);
    if Positive(body, d) { PositiveStarts(body, d); }
  }

  lemma QuoteDepth(s: string, d: int)
    ensures Depth(Quote(s)) == Depth(s) && (Positive(Quote(s), d) <==> Positive(s, d))
  {
    EscapeDepth(s, d);
    Delimited("\"", EscapeAll(s), "\"", d);
  }

  lemma {:induction false} PositiveStarts(s: string, d: int)
    requires Positive(s, d)
    ensures d > 0 && d + Depth(s) > 0
    decreases |s|
  {
    if s != "" {
      DepthFront(s);
      PositiveStarts(s[1..], d + Weight(s[0]));
    }
  }

  /** The depth of a print is decided by the strings in it alone. */
  lemma {:induction false} PrintDepth(j: Json, d: int)
    ensures Depth(Print(j)) == Net(j) && (Positive(Print(j), d) <==> Stays(j, d))
    decreases j, 0
  {
    match j {
      case Null => NoBracesPositive("null", d);
      case Bool(b) => NoBracesPositive(Print(j), d);
      case Number(lexeme) =>
        assert forall i :: 0 <= i < |lexeme| ==> NumberChar(lexeme[i]);
        NoBracesPositive(lexeme, d);
      case Str(text) => QuoteDepth(text, d);
      case Arr(elements) =>
        ElementsDepth(elements, d);
        Bracketed(j, PrintElements(elements), d);
      case Obj(members) =>
        MembersDepth(members, d + 1);
        Braced(j, PrintMembers(members), d);
    }
  }

  lemma {:induction false} Bracketed(j: Json, body: string, d: int)
    requires j.Arr? && body == PrintElements(j.elements)
    ensures Depth(Print(j)) == Depth(body) && (Positive(Print(j), d) <==> Positive(body, d))
  {
    Delimited("[", body, "]", d);
  }

  lemma {:induction false} Braced(j: Json, body: string, d: int)
    requires j.Obj? && body == PrintMembers(j.members)
    ensures Depth(Print(j)) == Depth(body)
    ensures Positive(Print(j), d) <==> d > 0 && Positive(body, d + 1) && d + Depth(body) > 0
  {
    BracedDepth(body, d);
  }

  lemma BracedDepth(body: string, d: int)
    ensures Depth("{" + body + "}") == Depth(body)
    ensures Positive("{" + body + "}", d) <==> d > 0 && Positive(body, d + 1) && d + Depth(body) > 0
  {
    OneBrace(d);
    OneBrace(d + 1 + Depth(body));
    DepthConcat("{", body);
    DepthConcat("{" + body, "}");
    PositiveConcat("{", body, d);
    PositiveConcat("{" + body, "}", d);
  }

  /** What separates the first of `n` entries from the rest. */
  function Comma(n: nat): string { if n == 1 then "" else "," }

  lemma {:induction false} ElementsText(es: seq<Json>)
    requires es != []
    ensures PrintElements(es) == Print(es[0]) + Comma(|es|) + PrintElements(es[1..])
  {
  }

  lemma {:induction false} ElementsJoined(text: string, first: string, sep: string, rest: string, d: int, es: seq<Json>)
    requires es != [] && text == first + sep + rest && NoBraces(sep)
    requires Depth(first) == Net(es[0]) && (Positive(first, d) <==> Stays(es[0], d))
    requires Depth(rest) == NetElements(es[1..])
    requires Positive(rest, d + Net(es[0])) <==> StaysElements(es[1..], d + Net(es[0]))
    ensures Depth(text) == NetElements(es) && (Positive(text, d) <==> StaysElements(es, d))
  {
    Joined(first, sep, rest, d);
    if Positive(first, d) { PositiveStarts(first, d); }
  }

  lemma {:induction false} ElementsDepth(es: seq<Json>, d: int)
    ensures Depth(PrintElements(es)) == NetElements(es)
    ensures Positive(PrintElements(es), d) <==> StaysElements(es, d)
    decreases es, 1
  {
    if es == [] {
      NoBracesPositive("", d);
    } else {
      ElementsText(es);
      PrintDepth(es[0], d);
      ElementsDepth(es[1..], d + Net(es[0]));
      ElementsJoined(PrintElements(es), Print(es[0]), Comma(|es|), PrintElements(es[1..]), d, es);
    }
  }

  /** Two texts around a brace-free separator. */
  lemma {:induction false} Joined(a: string, sep: string, b: string, d: int)
    requires NoBraces(sep)
    ensures Depth(a + sep + b) == Depth(a) + Depth(b)
    ensures Positive(a + sep + b, d) <==> Positive(a, d) && Positive(b, d + Depth(a))
  {
    Delimited("", a, sep, d);
    assert "" + a + sep == a + sep;
    DepthConcat(a + sep, b);
    PositiveConcat(a + sep, b, d);
  }

  lemma {:induction false} MembersText(ms: seq<Member>)
    requires ms != []
    ensures PrintMembers(ms) == PrintMember(ms[0]) + Comma(|ms|) + PrintMembers(ms[1..])
  {
  }

  lemma {:induction false} MembersJoined(text: string, first: string, sep: string, rest: string,
                                         d: int, ms: seq<Member>)
    requires ms != [] && text == first + sep + rest && NoBraces(sep)
    requires Depth(first) == NetMember(ms[0]) && (Positive(first, d) <==> StaysMember(ms[0], d))
    requires Depth(rest) == NetMembers(ms[1..])
    requires Positive(rest, d + NetMember(ms[0])) <==> StaysMembers(ms[1..], d + NetMember(ms[0]))
    ensures Depth(text) == NetMembers(ms) && (Positive(text, d) <==> StaysMembers(ms, d))
  {
    Joined(first, sep, rest, d);
    if Positive(first, d) { PositiveStarts(first, d); }
  }

  lemma {:induction false} MembersDepth(ms: seq<Member>, d: int)
    ensures Depth(PrintMembers(ms)) == NetMembers(ms)
    ensures Positive(PrintMembers(ms), d) <==> StaysMembers(ms, d)
    decreases ms, 1
  {
    if ms == [] {
      NoBracesPositive("", d);
    } else {
      MembersText(ms);
      MemberDepth(ms[0], d);
      MembersDepth(ms[1..], d + NetMember(ms[0]));
      MembersJoined(PrintMembers(ms), PrintMember(ms[0]), Comma(|ms|), PrintMembers(ms[1..]), d, ms);
    }
  }

  lemma {:induction false} MemberJoined(text: string, name: string, sep: string, value: string, d: int, m: Member)
    requires text == name + sep + value && NoBraces(sep)
    requires Depth(name) == Depth(m.name) && (Positive(name, d) <==> Positive(m.name, d))
    requires Depth(value) == Net(m.value)
    requires Positive(value, d + Depth(m.name)) <==> Stays(m.value, d + Depth(m.name))
    ensures Depth(text) == NetMember(m) && (Positive(text, d) <==> StaysMember(m, d))
  {
    Joined(name, sep, value, d);
  }

  lemma {:induction false} MemberDepth(m: Member, d: int)
    ensures Depth(PrintMember(m)) == NetMember(m)
    ensures Positive(PrintMember(m), d) <==> StaysMember(m, d)
    decreases m, 1
  {
    QuoteDepth(m.name, d);
    PrintDepth(m.value, d + Depth(m.name));
    MemberJoined(PrintMember(m), Quote(m.name), ":", Print(m.value), d, m);
  }

  /** An object prints as one block exactly when its strings balance. */
  lemma PrintIsBlockIff(o: Json)
    requires o.Obj?
    ensures Block(Print(o)) <==> StringsBalance(o)
  {
    MembersDepth(o.members, 1);
    BlockIff(PrintMembers(o.members));
  }

  lemma {:induction false} BraceFreeStays(j: Json, d: int)
    requires BraceFree(j) && d > 0
    ensures Stays(j, d) && Net(j) == 0
    decreases j, 0
  {
    match j {
      case Str(text) => NoBracesPositive(text, d);
      case Arr(elements) => BraceFreeElements(elements, d);
      case Obj(members) => BraceFreeMembers(members, d + 1);
      case _ =>
    }
  }

  lemma {:induction false} BraceFreeElements(es: seq<Json>, d: int)
    requires d > 0 && forall i :: 0 <= i < |es| ==> BraceFree(es[i])
    ensures StaysElements(es, d) && NetElements(es) == 0
    decreases es, 1
  {
    if es != [] {
      BraceFreeStays(es[0], d);
      BraceFreeElements(es[1..], d);
    }
  }

  lemma {:induction false} BraceFreeMembers(ms: seq<Member>, d: int)
    requires d > 0 && forall i :: 0 <= i < |ms| ==> NoBraces(ms[i].name) && BraceFree(ms[i].value)
    ensures StaysMembers(ms, d) && NetMembers(ms) == 0
    decreases ms, 1
  {
    if ms != [] {
      BraceFreeMember(ms[0], d);
      BraceFreeMembers(ms[1..], d + NetMember(ms[0]));
    }
  }

  lemma {:induction false} BraceFreeMember(m: Member, d: int)
    requires d > 0 && NoBraces(m.name) && BraceFree(m.value)
    ensures StaysMember(m, d) && NetMember(m) == 0
    decreases m, 1
  {
    NoBracesPositive(m.name, d);
    BraceFreeStays(m.value, d + Depth(m.name));
  }

  lemma PrintBalanced(j: Json)
    requires BraceFree(j)
    ensures Balanced(Print(j))
    ensures j.Obj? ==> Block(Print(j))
  {
    BraceFreeStays(j, 1);
    PrintDepth(j, 1);
    PositiveIff(Print(j), 1);
    if j.Obj? {
      BraceFreeMembers(j.members, 1);
      PrintIsBlockIff(j);
    }
  }

  // ---- Strategy 3: the brace scan -------------------------------------------------------------

  function Find(text: string, c: char): (i: nat)
    ensures i <= |text|
    ensures i < |text| ==> text[i] == c
    ensures forall k :: 0 <= k < i ==> text[k] != c
  {
    if text == "" then 0 else if text[0] == c then 0
    else
      assert forall k :: 0 < k < |text| ==> text[k] == text[1..][k - 1];
      1 + Find(text[1..], c)
  }

  /** `text[from..to]` is a block. */
  predicate BlockFrom(text: string, from: nat, to: nat) { from < to <= |text| && Block(text[from..to]) }

  /** A block that has closed cannot be the beginning of a longer one. */
  lemma BlocksDoNotNest(text: string, from: nat, a: nat, b: nat)
    requires BlockFrom(text, from, b) && from < a < b
    ensures !BlockFrom(text, from, a)
  {
    assert text[from..b][..a - from] == text[from..a];
  }

  /** The block the scan is after: the one opened by the first brace. There is at most one. */
  ghost function FirstBlock(text: string): (r: Option<string>)
    ensures r.Some? ==> Block(r.value)
    ensures r.Some? ==> exists to: nat :: BlockFrom(text, Find(text, '{'), to) && r.value == text[Find(text, '{')..to]
  {
    var from := Find(text, '{');
    if exists to: nat :: BlockFrom(text, from, to)
    then var to: nat :| BlockFrom(text, from, to); Some(text[from..to])
    else None
  }

  lemma FirstBlockIs(text: string, from: nat, to: nat)
    requires from == Find(text, '{') && BlockFrom(text, from, to)
    ensures FirstBlock(text) == Some(text[from..to])
  {
    var r := FirstBlock(text);
    var chosen: nat :| BlockFrom(text, from, chosen) && r.value == text[from..chosen];
    assert BlockFrom(text, from, chosen);
    if chosen < to {
      BlocksDoNotNest(text, from, chosen, to);
    } else if to < chosen {
      BlocksDoNotNest(text, from, to, chosen);
    }
  }

  lemma DepthStep(text: string, from: nat, i: nat)
    requires from <= i < |text|
    ensures Depth(text[from..i + 1]) == Depth(text[from..i]) + Weight(text[i])
  {
    assert text[from..i + 1][..i - from] == text[from..i];
  }

  lemma ClosesHere(text: string, from: nat, to: nat)
    requires from < to <= |text| && text[from] == '{'
    requires Depth(text[from..to]) == 0
    requires forall t :: from < t < to ==> Depth(text[from..t]) > 0
    ensures BlockFrom(text, from, to)
  {
    var s := text[from..to];
    forall n | 0 < n < |s| ensures Depth(s[..n]) > 0 { assert s[..n] == text[from..from + n]; }
  }

  lemma FirstClose(text: string, from: nat, to: nat)
    requires from == Find(text, '{') && from < to <= |text|
    requires Depth(text[from..to]) == 0
    requires forall t :: from < t < to ==> Depth(text[from..t]) > 0
    ensures FirstBlock(text) == Some(text[from..to])
  {
    ClosesHere(text, from, to);
    FirstBlockIs(text, from, to);
  }

  lemma NoneCloses(text: string)
    requires forall to: nat :: Find(text, '{') < to <= |text| ==> Depth(text[Find(text, '{')..to]) > 0
    ensures FirstBlock(text).None?
  {
  }

  /** The depth counter, started at a brace: just behind the character that closes it, if there is one. */
  method FindClose(text: string, start: nat) returns (end: Option<nat>)
    requires start < |text| && text[start] == '{'
    ensures end.Some? ==> start < end.value <= |text| && Depth(text[start..end.value]) == 0
    ensures forall to :: start < to < (if end.Some? then end.value else |text| + 1) ==> Depth(text[start..to]) > 0
  {
    var depth := 0;
    var i := start;
    while i < |text|
      invariant start <= i <= |text|
      invariant depth == Depth(text[start..i]) && (i > start ==> depth > 0)
      invariant forall to :: start < to <= i ==> Depth(text[start..to]) > 0
    {
      DepthStep(text, start, i);
      if text[i] == '{' {
        depth := depth + 1;
      } else if text[i] == '}' {
        depth := depth - 1;
        if depth == 0 { return Some(i + 1); }
      }
      i := i + 1;
    }
    return None;
  }

  /** One pass with a depth counter finds exactly the shortest block from the first brace on, or none. */
  method ScanBlock(text: string) returns (found: Option<string>)
    ensures found == FirstBlock(text)
  {
    var start := Find(text, '{');
    if start == |text| {
      NoneCloses(text);
      return None;
    }
    var end := FindClose(text, start);
    if end.None? {
      NoneCloses(text);
      return None;
    }
    FirstClose(text, start, end.value);
    return Some(text[start..end.value]);
  }

  lemma PrintEnds(o: Json)
    requires o.Obj?
    ensures Print(o) != "" && Print(o)[0] == '{' && Print(o)[|Print(o)| - 1] == '}'
  {
  }

  lemma FindAfter(pre: string, rest: string)
    requires '{' !in pre && rest != "" && rest[0] == '{'
    ensures Find(pre + rest, '{') == |pre|
  {
    assert (pre + rest)[|pre|] == '{';
    assert forall k :: 0 <= k < |pre| ==> (pre + rest)[k] == pre[k];
  }

  /**
   The scan recovers a printed object behind a preamble without opening braces, whatever follows it,
   exactly when the braces inside its strings never close the object early and cancel out overall.
   */
  lemma ScanRecoversIff(pre: string, o: Json, post: string)
    requires o.Obj? && '{' !in pre
    ensures FirstBlock(pre + Print(o) + post) == Some(Print(o)) <==> StringsBalance(o)
  {
    PrintEnds(o);
    PrintIsBlockIff(o);
    var text, to := pre + Print(o) + post, |pre| + |Print(o)|;
    assert text == pre + (Print(o) + post);
    FindAfter(pre, Print(o) + post);
    assert text[|pre|..to] == Print(o);
    if Block(Print(o)) { FirstBlockIs(text, |pre|, to); }
  }

  /**
   A reply is unambiguous: it cannot be taken apart in two ways into a preamble without opening
   braces, an object whose strings balance, and the rest.
   */
  lemma {:induction false} ReplyIsUnambiguous(pre: string, o: Json, post: string, pre': string, o': Json, post': string)
    requires o.Obj? && StringsBalance(o) && '{' !in pre
    requires o'.Obj? && StringsBalance(o') && '{' !in pre'
    requires pre + Print(o) + post == pre' + Print(o') + post'
    ensures pre == pre' && o == o' && post == post'
  {
    ScanRecoversIff(pre, o, post);
    ScanRecoversIff(pre', o', post');
    PrintInjective(o, o');
    PrintEnds(o);
    var text, body := pre + Print(o) + post, Print(o);
    assert text == pre + (body + post) && text == pre' + (body + post');
    FindAfter(pre, body + post);
    FindAfter(pre', body + post');
    Cut(pre, pre', body + post, body + post');
    Cut(body, body, post, post');
  }

  /** Extraction round trip of the scan: objects printed without braces in their strings always come back. */
  lemma ScanRecovers(pre: string, o: Json, post: string)
    requires o.Obj? && BraceFree(o) && '{' !in pre
    ensures FirstBlock(pre + Print(o) + post) == Some(Print(o))
  {
    BraceFreeMembers(o.members, 1);
    ScanRecoversIff(pre, o, post);
  }

  lemma BraceObjectPrints()
    ensures Print(Obj([Member("a", Str("}"))])) == "{\"a\":\"}\"}"
  {
  }

  /** A closing brace inside a string ends the block too early. */
  lemma BraceInStringBreaksScan()
    ensures var o := Obj([Member("a", Str("}"))]);
            Print(o) == "{\"a\":\"}\"}" && FirstBlock(Print(o)) == Some("{\"a\":\"}")
  {
    BraceObjectPrints();
    var text := "{\"a\":\"}\"}";
    assert Find(text, '{') == 0;
    var s := text[0..7];
    assert s == "{" + "\"a\":\"" + "}";
    NoBracesPositive("\"a\":\"", 1);
    BlockIff("\"a\":\"");
    FirstBlockIs(text, 0, 7);
    assert s == "{\"a\":\"}";
  }

  // ---- Strategy 2: the code fence -------------------------------------------------------------

  predicate FenceAt(text: string, i: nat) { i + 3 <= |text| && text[i..i + 3] == "```" }

  /** First fence at or after `from`, or the length of the text. */
  function FindFence(text: string, from: nat): (i: nat)
    requires from <= |text|
    ensures from <= i <= |text|
    ensures i < |text| ==> FenceAt(text, i)
    ensures forall k :: from <= k < i ==> !FenceAt(text, k)
    ensures i == |text| ==> forall k: nat :: from <= k ==> !FenceAt(text, k)
    decreases |text| - from
  {
    if from == |text| then from else if FenceAt(text, from) then from else FindFence(text, from + 1)
  }

  lemma FirstFenceIs(text: string, from: nat, i: nat)
    requires from <= i && FenceAt(text, i)
    requires forall n: nat :: from <= n < i ==> !FenceAt(text, n)
    ensures FindFence(text, from) == i
  {
  }

  function SkipSpace(text: string, from: nat): (i: nat)
    requires from <= |text|
    ensures from <= i <= |text|
    decreases |text| - from
  {
    if from < |text| && IsSpace(text[from]) then SkipSpace(text, from + 1) else from
  }

  /** Where the content of a fence opened at `i` starts: after an optional language tag and white space. */
  function FenceStart(text: string, i: nat): (j: nat)
    requires FenceAt(text, i)
    ensures j <= |text|
  {
    var j := i + 3;
    SkipSpace(text, if j + 4 <= |text| && text[j..j + 4] == "json" then j + 4 else j)
  }

  /** The text between the first fence and the next one. */
  function FenceBody(text: string): Option<string> {
    var i := FindFence(text, 0);
    if i == |text| then None
    else
      var j := FenceStart(text, i);
      var k := FindFence(text, j);
      if k == |text| then None else Some(text[j..k])
  }

  // ---- The three strategies -------------------------------------------------------------------

  type Loads = string -> Option<Json>

  ghost function Parse(loads: Loads, raw: string): Option<Json> {
    var text := Strip(raw);
    if loads(text).Some? then loads(text)
    else if FenceBody(text).Some? && loads(Strip(FenceBody(text).value)).Some? then loads(Strip(FenceBody(text).value))
    else if FirstBlock(text).Some? then loads(FirstBlock(text).value)
    else None
  }

  method ParseJsonResponse(loads: Loads, raw: string) returns (result: Option<Json>)
    ensures result == Parse(loads, raw)
  {
    var text := Strip(raw);
    result := loads(text);
    if result.Some? { return; }
    var fence := FenceBody(text);
    if fence.Some? {
      result := loads(Strip(fence.value));
      if result.Some? { return; }
    }
    var block := ScanBlock(text);
    if block.None? { return None; }
    return loads(block.value);
  }

  ghost predicate NoFence(text: string) { forall i: nat :: !FenceAt(text, i) }

  lemma {:induction false} StripKeepsNoFence(raw: string)
    requires NoFence(raw)
    ensures NoFence(Strip(raw))
  {
    var d := StripIsInside(raw);
    InsideKeepsNoFence(raw, d, Strip(raw));
  }

  lemma {:induction false} InsideKeepsNoFence(raw: string, d: nat, text: string)
    requires NoFence(raw) && d + |text| <= |raw| && forall k :: 0 <= k < |text| ==> text[k] == raw[d + k]
    ensures NoFence(text)
  {
    forall i: nat | i + 3 <= |text| ensures !FenceAt(text, i) {
      FenceChars(text, i);
      FenceChars(raw, d + i);
      assert !FenceAt(raw, d + i);
    }
  }

  lemma FenceChars(text: string, i: nat)
    requires i + 3 <= |text|
    ensures FenceAt(text, i) <==> text[i] == '`' && text[i + 1] == '`' && text[i + 2] == '`'
  {
    var f := text[i..i + 3];
    assert f[0] == text[i] && f[1] == text[i + 1] && f[2] == text[i + 2];
    if text[i] == '`' && text[i + 1] == '`' && text[i + 2] == '`' { assert f == ['`', '`', '`']; }
  }

  lemma {:induction false} StrippedReply(pre: string, o: Json, post: string)
    requires o.Obj? && StringsBalance(o) && '{' !in pre
    ensures FirstBlock(Strip(pre + Print(o) + post)) == Some(Print(o))
    ensures Blank(pre) && Blank(post) ==> Strip(pre + Print(o) + post) == Print(o)
  {
    PrintEnds(o);
    StripAround(pre, Print(o), post);
    StripLeftIsSuffix(pre);
    ScanRecoversIff(StripLeft(pre), o, StripRight(post));
    if Blank(pre) && Blank(post) {
      BlankStrips(pre);
      BlankStrips(post);
    }
  }

  /**
   Extraction round trip: an object whose strings balance, behind a preamble without an opening
   brace and before any text, in a reply without a code fence, is read back - unless the whole reply
   already parses as JSON, in which case that value is the answer.
   */
  lemma ReplyRoundTrip(loads: Loads, pre: string, o: Json, post: string)
    requires o.Obj? && loads(Print(o)) == Some(o) && StringsBalance(o)
    requires '{' !in pre && NoFence(pre + Print(o) + post)
    ensures var raw := pre + Print(o) + post;
            Parse(loads, raw) == if loads(Strip(raw)).Some? then loads(Strip(raw)) else Some(o)
    ensures Blank(pre) && Blank(post) ==> Parse(loads, pre + Print(o) + post) == Some(o)
  {
    var raw := pre + Print(o) + post;
    StrippedReply(pre, o, post);
    StripKeepsNoFence(raw);
    assert FenceBody(Strip(raw)).None?;
  }

  /**
   A code fence whose content is not JSON, wherever it stands, does not get in the way: the object is
   still read back from the rest of the reply.
   */
  lemma UselessFenceFallsThrough(loads: Loads, pre: string, o: Json, post: string)
    requires o.Obj? && loads(Print(o)) == Some(o) && StringsBalance(o) && '{' !in pre
    requires var fence := FenceBody(Strip(pre + Print(o) + post)); fence.Some? && loads(Strip(fence.value)).None?
    ensures var raw := pre + Print(o) + post;
            Parse(loads, raw) == if loads(Strip(raw)).Some? then loads(Strip(raw)) else Some(o)
  {
    StrippedReply(pre, o, post);
  }

  /** A Markdown fence with or without its language tag. */
  function FenceOpen(tagged: bool): string { if tagged then "```json\n" else "```\n" }

  const FENCE_CLOSE := "\n```"

  /**
   A reply that wraps the object in a Markdown fence, tagged or not, reads back too, whatever braces its
   strings hold.
   */
  lemma {:induction false} FencedRoundTrip(loads: Loads, tagged: bool, pre: string, o: Json, post: string)
    requires o.Obj? && loads(Print(o)) == Some(o) && '`' !in pre && '`' !in Print(o)
    ensures var raw := pre + (FenceOpen(tagged) + Print(o) + FENCE_CLOSE) + post;
            Parse(loads, raw) == if loads(Strip(raw)).Some? then loads(Strip(raw)) else Some(o)
  {
    var body := Print(o);
    PrintEnds(o);
    FencedStrips(tagged, pre, body, post);
    FencedBody(tagged, StripLeft(pre), body, StripRight(post));
    BodyStrips(body);
  }

  lemma {:induction false} FencedStrips(tagged: bool, pre: string, body: string, post: string)
    requires '`' !in pre
    ensures var core := FenceOpen(tagged) + body + FENCE_CLOSE;
            Strip(pre + core + post) == StripLeft(pre) + core + StripRight(post)
    ensures '`' !in StripLeft(pre)
  {
    var core := FenceOpen(tagged) + body + FENCE_CLOSE;
    assert core[0] == FenceOpen(tagged)[0] == '`';
    assert core[|core| - 1] == FENCE_CLOSE[3] == '`';
    StripAround(pre, core, post);
    StripLeftIsSuffix(pre);
  }

  lemma BodyStrips(body: string)
    requires body != "" && !IsSpace(body[0]) && !IsSpace(body[|body| - 1])
    ensures Strip(body + "\n") == body
  {
    StripAround("", body, "\n");
    BlankStrips("\n");
    assert "" + body + "\n" == body + "\n";
  }

  lemma {:induction false} FencedBody(tagged: bool, pre: string, body: string, post: string)
    requires '`' !in pre && '`' !in body && body != "" && !IsSpace(body[0])
    ensures FenceBody(pre + (FenceOpen(tagged) + body + FENCE_CLOSE) + post) == Some(body + "\n")
  {
    var text := pre + (FenceOpen(tagged) + body + FENCE_CLOSE) + post;
    Layout(text, pre, FenceOpen(tagged), body, FENCE_CLOSE, post);
    FencedAt(text, tagged, |pre|, |pre| + |FenceOpen(tagged)|, body);
  }

  lemma {:induction false} FencedAt(text: string, tagged: bool, i: nat, j: nat, body: string)
    requires j == i + |FenceOpen(tagged)| && j + |body| + 4 <= |text|
    requires '`' !in text[..i] && text[i..j] == FenceOpen(tagged)
    requires '`' !in body && body != "" && !IsSpace(body[0]) && text[j..j + |body|] == body
    requires text[j + |body|..j + |body| + 4] == FENCE_CLOSE
    ensures FenceBody(text) == Some(body + "\n")
  {
    var k := j + |body| + 1;
    FenceCloses(text, j + |body|);
    assert text[j..k] == body + "\n";
    assert text[j] == body[0];
    FenceOpens(text, i, j, tagged);
    FenceIn(text, i, j, k);
  }

  /** Where the parts of a fenced reply stand. */
  lemma {:induction false} Layout(text: string, pre: string, open: string, body: string, close: string, post: string)
    requires text == pre + (open + body + close) + post
    ensures var i := |pre|;
            var j := i + |open|;
            var k := j + |body|;
            && k + |close| <= |text|
            && text[..i] == pre && text[i..j] == open && text[j..k] == body && text[k..k + |close|] == close
  {
  }

  lemma FenceCloses(text: string, n: nat)
    requires n + 4 <= |text| && text[n..n + 4] == FENCE_CLOSE
    ensures text[n] == '\n' && text[n + 1..n + 4] == "```"
  {
    var close := text[n..n + 4];
    assert text[n] == close[0];
    assert text[n + 1..n + 4] == close[1..];
  }

  /** A fence opens the content right behind its line. */
  lemma FenceOpens(text: string, i: nat, j: nat, tagged: bool)
    requires j == i + |FenceOpen(tagged)| < |text| && text[i..j] == FenceOpen(tagged) && !IsSpace(text[j])
    ensures FenceAt(text, i) && FenceStart(text, i) == j
  {
    if tagged { TaggedFence(text, i); } else { UntaggedFence(text, i); }
    assert text[j - 1] == '\n';
    assert SkipSpace(text, j - 1) == SkipSpace(text, j) == j;
  }

  lemma TaggedFence(text: string, i: nat)
    requires i + 8 <= |text| && text[i..i + 8] == FenceOpen(true)
    ensures text[i..i + 3] == "```" && text[i + 3..i + 7] == "json" && text[i + 7] == '\n'
  {
    var tag := text[i..i + 8];
    assert tag == "```json\n";
    assert text[i..i + 3] == tag[..3] == "```";
    assert text[i + 3] == tag[3] && text[i + 4] == tag[4] && text[i + 5] == tag[5] && text[i + 6] == tag[6];
    assert text[i + 3..i + 7] == ['j', 's', 'o', 'n'];
    assert text[i + 7] == tag[7];
  }

  lemma UntaggedFence(text: string, i: nat)
    requires i + 4 <= |text| && text[i..i + 4] == FenceOpen(false)
    ensures text[i..i + 3] == "```" && text[i + 3] == '\n'
    ensures i + 7 <= |text| ==> text[i + 3..i + 7] != "json"
  {
    var tag := text[i..i + 4];
    assert tag == "```\n";
    assert text[i..i + 3] == tag[..3] == "```";
    assert text[i + 3] == tag[3];
    if i + 7 <= |text| { assert text[i + 3..i + 7][0] == text[i + 3]; }
  }

  /** A fence at `i`, whose content `j..k` has no back-tick. */
  lemma FenceIn(text: string, i: nat, j: nat, k: nat)
    requires i < j < k && k + 3 <= |text| && FenceAt(text, i) && FenceStart(text, i) == j
    requires '`' !in text[..i] && '`' !in text[j..k] && text[k..k + 3] == "```"
    ensures FenceBody(text) == Some(text[j..k])
  {
    forall n: nat | n < i ensures !FenceAt(text, n) {
      assert text[..i][n] == text[n] == text[n..n + 3][0];
    }
    FirstFenceIs(text, 0, i);
    forall n: nat | j <= n < k ensures !FenceAt(text, n) {
      assert text[j..k][n - j] == text[n] == text[n..n + 3][0];
    }
    FirstFenceIs(text, j, k);
  }
}
