/**
 JSON values and their compact text (objects and numbers as in sections 4 and 6 of RFC 8259). The
 text is proved to determine the value.
 */
module JsonText {
  predicate NumberChar(c: char) { '0' <= c <= '9' || c in "+-.eE" }

  function DigitsEnd(s: string, from: nat): (end: nat)
    requires from <= |s|
    ensures from <= end <= |s|
    decreases |s| - from
  {
    if from < |s| && '0' <= s[from] <= '9' then DigitsEnd(s, from + 1) else from
  }

  /** Optional minus, integer part without a leading zero, then optionally a fraction and an exponent. */
  predicate IsNumber(s: string) {
    var i := if s != "" && s[0] == '-' then 1 else 0;
    var j := DigitsEnd(s, i);
    var k := if j < |s| && s[j] == '.' then DigitsEnd(s, j + 1) else j;
    var e := if k < |s| && s[k] in "eE" then (if k + 1 < |s| && s[k + 1] in "+-" then k + 2 else k + 1) else k;
    && i < j && (s[i] == '0' ==> j == i + 1)
    && (k == j || k > j + 1)
    && (if e == k then k == |s| else e < DigitsEnd(s, e) == |s|)
    && forall n :: 0 <= n < |s| ==> NumberChar(s[n])
  }

  type Lexeme = s: string | IsNumber(s) witness "0"

  /** Numbers are kept as the text that denotes them. */
  datatype Json =
    | Null
    | Bool(b: bool)
    | Number(lexeme: Lexeme)
    | Str(text: string)
    | Arr(elements: seq<Json>)
    | Obj(members: seq<Member>)

  datatype Member = Member(name: string, value: Json)

  function HexDigit(d: nat): char
    requires d < 16
  {
    "0123456789abcdef"[d]
  }

  /** One character inside a string literal; control characters are written as \u escapes. */
  function Escape(c: char): string {
    if c == '"' then "\\\"" else if c == '\\' then "\\\\"
    else if c < ' ' then "\\u00" + [HexDigit(c as nat / 16), HexDigit(c as nat % 16)]
    else [c]
  }

  function EscapeAll(s: string): string {
    if s == "" then "" else Escape(s[0]) + EscapeAll(s[1..])
  }

  function Quote(s: string): string { "\"" + EscapeAll(s) + "\"" }

  /** Compact printing: no blanks between tokens. */
  function Print(j: Json): string
    decreases j, 0
  {
    match j
    case Null => "null"
    case Bool(b) => if b then "true" else "false"
    case Number(lexeme) => lexeme
    case Str(text) => Quote(text)
    case Arr(elements) => "[" + PrintElements(elements) + "]"
    case Obj(members) => "{" + PrintMembers(members) + "}"
  }

  function PrintElements(es: seq<Json>): string
    decreases es, 1
  {
    if es == [] then "" else if |es| == 1 then Print(es[0]) else Print(es[0]) + "," + PrintElements(es[1..])
  }

  function PrintMembers(ms: seq<Member>): string
    decreases ms, 1
  {
    if ms == [] then ""
    else
      var first := Quote(ms[0].name) + ":" + Print(ms[0].value);
      if |ms| == 1 then first else first + "," + PrintMembers(ms[1..])
  }

  // ---- Unique readability ---------------------------------------------------------------------

  /** What may follow a printed value. */
  predicate Ends(s: string) { s == "" || s[0] in ",]}" }

  lemma Cut(p: string, q: string, s: string, t: string)
    requires p + s == q + t && |p| == |q|
    ensures p == q && s == t
  {
    assert p == (p + s)[..|p|] && q == (q + t)[..|q|];
    assert s == (p + s)[|p|..] && t == (q + t)[|q|..];
  }

  lemma EscapeLength(c: char, d: char, s: string, t: string)
    requires Escape(c) + s == Escape(d) + t
    ensures |Escape(c)| == |Escape(d)|
  {
    var left, right := Escape(c) + s, Escape(d) + t;
    assert left[0] == Escape(c)[0] && right[0] == Escape(d)[0];
    assert |Escape(c)| > 1 ==> left[1] == Escape(c)[1];
    assert |Escape(d)| > 1 ==> right[1] == Escape(d)[1];
  }

  lemma HexInjective(a: nat, b: nat)
    requires a < 16 && b < 16 && HexDigit(a) == HexDigit(b)
    ensures a == b
  {
  }

  lemma EscapeInjective(c: char, d: char)
    requires Escape(c) == Escape(d)
    ensures c == d
  {
    if |Escape(c)| == 6 {
      assert Escape(c)[4] == Escape(d)[4] && Escape(c)[5] == Escape(d)[5];
      HexInjective(c as nat / 16, d as nat / 16);
      HexInjective(c as nat % 16, d as nat % 16);
    } else {
      assert Escape(c)[|Escape(c)| - 1] == Escape(d)[|Escape(d)| - 1];
    }
  }

  lemma EscapeReadable(c: char, d: char, s: string, t: string)
    requires Escape(c) + s == Escape(d) + t
    ensures c == d && s == t
  {
    EscapeLength(c, d, s, t);
    Cut(Escape(c), Escape(d), s, t);
    EscapeInjective(c, d);
  }

  function QuoteTail(x: string, s: string): string { EscapeAll(x) + ("\"" + s) }

  lemma QuoteSplit(x: string, s: string)
    ensures x == "" ==> QuoteTail(x, s) == "\"" + s
    ensures x != "" ==> QuoteTail(x, s) == Escape(x[0]) + QuoteTail(x[1..], s)
    ensures (QuoteTail(x, s)[0] == '"') == (x == "")
  {
  }

  lemma {:induction false} QuoteReadable(x: string, y: string, s: string, t: string)
    requires QuoteTail(x, s) == QuoteTail(y, t)
    ensures x == y && s == t
    decreases |x|
  {
    QuoteSplit(x, s);
    QuoteSplit(y, t);
    if x == "" {
      Cut("\"", "\"", s, t);
    } else {
      EscapeReadable(x[0], y[0], QuoteTail(x[1..], s), QuoteTail(y[1..], t));
      QuoteReadable(x[1..], y[1..], s, t);
      assert x == [x[0]] + x[1..] && y == [y[0]] + y[1..];
    }
  }

  lemma NumberNotLonger(x: Lexeme, y: Lexeme, s: string, t: string)
    requires x + s == y + t && Ends(s)
    ensures |y| <= |x|
  {
    var text := x + s;
    forall i | 0 <= i < |y| ensures NumberChar(text[i]) { assert text[i] == (y + t)[i] == y[i]; }
    if s != "" { assert text[|x|] == s[0]; }
  }

  lemma NumberReadable(x: Lexeme, y: Lexeme, s: string, t: string)
    requires x + s == y + t && Ends(s) && Ends(t)
    ensures x == y && s == t
  {
    NumberNotLonger(x, y, s, t);
    NumberNotLonger(y, x, t, s);
    Cut(x, y, s, t);
  }

  /** The first character of a printed value tells its kind. */
  lemma {:induction false} FirstChar(j: Json)
    ensures Print(j) != ""
    ensures var c := Print(j)[0];
            && (c == 'n' <==> j.Null?) && (c == 't' || c == 'f' <==> j.Bool?) && (NumberChar(c) <==> j.Number?)
            && (c == '"' <==> j.Str?) && (c == '[' <==> j.Arr?) && (c == '{' <==> j.Obj?)
            && c !in ",]}"
  {
  }

  lemma {:induction false} SameKind(a: Json, b: Json, s: string, t: string)
    requires Print(a) + s == Print(b) + t
    ensures Print(a) != "" && Print(b) != "" && Print(a)[0] == Print(b)[0]
    ensures a.Null? == b.Null? && a.Bool? == b.Bool? && a.Number? == b.Number?
    ensures a.Str? == b.Str? && a.Arr? == b.Arr? && a.Obj? == b.Obj?
  {
    FirstChar(a);
    FirstChar(b);
    assert (Print(a) + s)[0] == Print(a)[0] && (Print(b) + t)[0] == Print(b)[0];
  }

  lemma Regroup(p: string, q: string, r: string, s: string)
    ensures p + q + r + s == p + (q + (r + s))
  {
  }

  /** A printed value is never the beginning of another one, and no two values print alike. */
  lemma {:induction false} PrintReadable(a: Json, b: Json, s: string, t: string)
    requires Print(a) + s == Print(b) + t && Ends(s) && Ends(t)
    ensures a == b && s == t
    decreases a, 0
  {
    SameKind(a, b, s, t);
    match a {
      case Null => Cut(Print(a), Print(b), s, t);
      case Bool(x) => Cut(Print(a), Print(b), s, t);
      case Number(x) => NumberReadable(x, b.lexeme, s, t);
      case Str(x) => StrReadable(x, b.text, s, t);
      case Arr(es) => ArrReadable(es, b.elements, s, t);
      case Obj(ms) => ObjReadable(ms, b.members, s, t);
    }
  }

  lemma {:induction false} StrReadable(x: string, y: string, s: string, t: string)
    requires Quote(x) + s == Quote(y) + t
    ensures x == y && s == t
  {
    Regroup("\"", EscapeAll(x), "\"", s);
    Regroup("\"", EscapeAll(y), "\"", t);
    Cut("\"", "\"", QuoteTail(x, s), QuoteTail(y, t));
    QuoteReadable(x, y, s, t);
  }

  lemma {:induction false} ArrReadable(es: seq<Json>, fs: seq<Json>, s: string, t: string)
    requires "[" + PrintElements(es) + "]" + s == "[" + PrintElements(fs) + "]" + t
    ensures es == fs && s == t
    decreases es, 2
  {
    Regroup("[", PrintElements(es), "]", s);
    Regroup("[", PrintElements(fs), "]", t);
    Cut("[", "[", PrintElements(es) + ("]" + s), PrintElements(fs) + ("]" + t));
    ElementsReadable(es, fs, "]" + s, "]" + t);
    Cut("]", "]", s, t);
  }

  lemma {:induction false} ObjReadable(ms: seq<Member>, ns: seq<Member>, s: string, t: string)
    requires "{" + PrintMembers(ms) + "}" + s == "{" + PrintMembers(ns) + "}" + t
    ensures ms == ns && s == t
    decreases ms, 2
  {
    Regroup("{", PrintMembers(ms), "}", s);
    Regroup("{", PrintMembers(ns), "}", t);
    Cut("{", "{", PrintMembers(ms) + ("}" + s), PrintMembers(ns) + ("}" + t));
    MembersReadable(ms, ns, "}" + s, "}" + t);
    Cut("}", "}", s, t);
  }

  /** Two continuations of a list agree only if both close it or both go on with the next entry. */
  lemma TailsAgree(last: bool, last': bool, s: string, t: string, x: string, y: string)
    requires s != "" && t != "" && s[0] == t[0] != ','
    requires (if last then s else "," + x) == (if last' then t else "," + y)
    ensures last == last' && if last then s == t else x == y
  {
    if !last && !last' { Cut(",", ",", x, y); }
  }

  /** What stands behind the first of some elements: the rest of them, then `s`. */
  function ElementsTail(es: seq<Json>, s: string): string
    requires es != []
  {
    if |es| == 1 then s else "," + (PrintElements(es[1..]) + s)
  }

  lemma {:induction false} ElementsSplit(es: seq<Json>, s: string)
    requires es != []
    ensures PrintElements(es) + s == Print(es[0]) + ElementsTail(es, s)
    ensures (PrintElements(es) + s)[..1] == Print(es[0])[..1] != "]"
  {
    FirstChar(es[0]);
    var first := Print(es[0]);
    if |es| > 1 {
      Regroup(first, ",", PrintElements(es[1..]), s);
      assert PrintElements(es) == first + "," + PrintElements(es[1..]);
    }
    assert (first + ElementsTail(es, s))[..1] == first[..1];
    assert first[..1][0] != "]"[0];
  }

  lemma {:induction false} ElementsEnd(es: seq<Json>, fs: seq<Json>, s: string, t: string)
    requires PrintElements(es) + s == PrintElements(fs) + t
    requires s != "" && t != "" && s[0] == t[0] == ']'
    requires es == [] || fs == []
    ensures es == fs && s == t
  {
    if es != [] { ElementsSplit(es, s); }
    if fs != [] { ElementsSplit(fs, t); }
    assert s[..1] == t[..1] == "]";
    assert "" + s == s && "" + t == t;
  }

  lemma {:induction false} ElementsHead(es: seq<Json>, fs: seq<Json>, s: string, t: string)
    requires es != [] && fs != [] && PrintElements(es) + s == PrintElements(fs) + t
    requires s != "" && t != "" && s[0] == t[0] == ']'
    ensures es[0] == fs[0] && (|es| == 1 <==> |fs| == 1)
    ensures if |es| == 1 then s == t else PrintElements(es[1..]) + s == PrintElements(fs[1..]) + t
    decreases es, 0
  {
    ElementsSplit(es, s);
    ElementsSplit(fs, t);
    PrintReadable(es[0], fs[0], ElementsTail(es, s), ElementsTail(fs, t));
    TailsAgree(|es| == 1, |fs| == 1, s, t, PrintElements(es[1..]) + s, PrintElements(fs[1..]) + t);
  }

  lemma {:induction false} ElementsReadable(es: seq<Json>, fs: seq<Json>, s: string, t: string)
    requires PrintElements(es) + s == PrintElements(fs) + t
    requires s != "" && t != "" && s[0] == t[0] == ']'
    ensures es == fs && s == t
    decreases es, 1
  {
    if es == [] || fs == [] {
      ElementsEnd(es, fs, s, t);
    } else {
      ElementsHead(es, fs, s, t);
      if |es| > 1 { ElementsReadable(es[1..], fs[1..], s, t); }
      assert es == [es[0]] + es[1..] && fs == [fs[0]] + fs[1..];
    }
  }

  function MembersTail(ms: seq<Member>, s: string): string
    requires ms != []
  {
    if |ms| == 1 then s else "," + (PrintMembers(ms[1..]) + s)
  }

  function PrintMember(m: Member): string { Quote(m.name) + ":" + Print(m.value) }

  lemma {:induction false} MembersSplit(ms: seq<Member>, s: string)
    requires ms != []
    ensures PrintMembers(ms) + s == PrintMember(ms[0]) + MembersTail(ms, s)
    ensures (PrintMembers(ms) + s)[..1] == "\""
  {
    var first := PrintMember(ms[0]);
    if |ms| > 1 {
      Regroup(first, ",", PrintMembers(ms[1..]), s);
      assert PrintMembers(ms) == first + "," + PrintMembers(ms[1..]);
    }
    assert first[..1] == "\"";
    assert (first + MembersTail(ms, s))[..1] == first[..1];
  }

  lemma {:induction false} MembersEnd(ms: seq<Member>, ns: seq<Member>, s: string, t: string)
    requires PrintMembers(ms) + s == PrintMembers(ns) + t
    requires s != "" && t != "" && s[0] == t[0] == '}'
    requires ms == [] || ns == []
    ensures ms == ns && s == t
  {
    if ms != [] { MembersSplit(ms, s); }
    if ns != [] { MembersSplit(ns, t); }
    assert s[..1] == t[..1] == "}";
    assert "" + s == s && "" + t == t;
  }

  lemma {:induction false} MembersHead(ms: seq<Member>, ns: seq<Member>, s: string, t: string)
    requires ms != [] && ns != [] && PrintMembers(ms) + s == PrintMembers(ns) + t
    requires s != "" && t != "" && s[0] == t[0] == '}'
    ensures ms[0] == ns[0] && (|ms| == 1 <==> |ns| == 1)
    ensures if |ms| == 1 then s == t else PrintMembers(ms[1..]) + s == PrintMembers(ns[1..]) + t
    decreases ms, 0
  {
    MembersSplit(ms, s);
    MembersSplit(ns, t);
    MemberReadable(ms[0], ns[0], MembersTail(ms, s), MembersTail(ns, t));
    TailsAgree(|ms| == 1, |ns| == 1, s, t, PrintMembers(ms[1..]) + s, PrintMembers(ns[1..]) + t);
  }

  lemma {:induction false} MembersReadable(ms: seq<Member>, ns: seq<Member>, s: string, t: string)
    requires PrintMembers(ms) + s == PrintMembers(ns) + t
    requires s != "" && t != "" && s[0] == t[0] == '}'
    ensures ms == ns && s == t
    decreases ms, 1
  {
    if ms == [] || ns == [] {
      MembersEnd(ms, ns, s, t);
    } else {
      MembersHead(ms, ns, s, t);
      if |ms| > 1 { MembersReadable(ms[1..], ns[1..], s, t); }
      assert ms == [ms[0]] + ms[1..] && ns == [ns[0]] + ns[1..];
    }
  }

  lemma {:induction false} MemberReadable(m: Member, n: Member, s: string, t: string)
    requires PrintMember(m) + s == PrintMember(n) + t && Ends(s) && Ends(t)
    ensures m == n && s == t
    decreases m, 1
  {
    Regroup(Quote(m.name), ":", Print(m.value), s);
    Regroup(Quote(n.name), ":", Print(n.value), t);
    StrReadable(m.name, n.name, ":" + (Print(m.value) + s), ":" + (Print(n.value) + t));
    Cut(":", ":", Print(m.value) + s, Print(n.value) + t);
    PrintReadable(m.value, n.value, s, t);
  }

  lemma PrintInjective(a: Json, b: Json)
    requires Print(a) == Print(b)
    ensures a == b
  {
    assert Print(a) + "" == Print(b) + "";
    PrintReadable(a, b, "", "");
  }
}
