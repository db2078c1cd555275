/** The string operations the services lean on: trimming, lower-casing, ordering and hexadecimal. */
module Text {

  /** ASCII white space. */
  predicate IsSpace(c: char) {
    c == ' ' || '\t' <= c <= '\r'
  }

  function TrimLeft(s: string): (t: string)
    ensures |t| <= |s| && (t == [] || !IsSpace(t[0]))
  {
    if s != [] && IsSpace(s[0]) then TrimLeft(s[1..]) else s
  }

  function TrimRight(s: string): (t: string)
    ensures t <= s && (t == [] || !IsSpace(t[|t| - 1]))
  {
    if s != [] && IsSpace(s[|s| - 1]) then TrimRight(s[..|s| - 1]) else s
  }

  /** `str.strip()` and `strings.TrimSpace`. */
  function Strip(s: string): string {
    TrimRight(TrimLeft(s))
  }

  predicate Stripped(s: string) {
    s == [] || (!IsSpace(s[0]) && !IsSpace(s[|s| - 1]))
  }

  predicate Blank(s: string) {
    forall i :: 0 <= i < |s| ==> IsSpace(s[i])
  }

  /** `t` is `s` without the white space at its ends. */
  ghost predicate TrimsTo(s: string, t: string) {
    Stripped(t) && exists before, after :: Blank(before) && Blank(after) && s == before + t + after
  }

  lemma {:induction false} TrimLeftTrims(s: string) returns (before: string)
    ensures Blank(before) && s == before + TrimLeft(s)
  {
    if s != [] && IsSpace(s[0]) {
      before := TrimLeftTrims(s[1..]);
      before := [s[0]] + before;
    } else {
      before := [];
    }
  }

  lemma {:induction false} TrimRightTrims(s: string) returns (after: string)
    ensures Blank(after) && s == TrimRight(s) + after
    ensures TrimRight(s) != [] ==> TrimRight(s)[0] == s[0]
  {
    if s != [] && IsSpace(s[|s| - 1]) {
      after := TrimRightTrims(s[..|s| - 1]);
      after := after + [s[|s| - 1]];
    } else {
      after := [];
    }
  }

  /** Stripping takes the white space at the ends and nothing else, and leaves nothing only of a blank text. */
  lemma StripTrims(s: string)
    ensures TrimsTo(s, Strip(s))
    ensures Strip(s) == "" <==> Blank(s)
  {
    var before := TrimLeftTrims(s);
    var after := TrimRightTrims(TrimLeft(s));
    assert s == before + Strip(s) + after;
    if Strip(s) != "" {
      assert s[|before|] == Strip(s)[0];
    }
  }

  /** So there is one way to strip. */
  lemma TrimsToOne(s: string, t: string)
    requires TrimsTo(s, t)
    ensures t == Strip(s)
  {
    StripTrims(s);
    var b, a :| Blank(b) && Blank(a) && s == b + t + a;
    if t == "" {
      assert Blank(s);
    } else {
      assert s[|b|] == t[0];
      var b', a' :| Blank(b') && Blank(a') && s == b' + Strip(s) + a';
      OneSplit(s, b, t, a, b', Strip(s), a');
    }
  }

  lemma OneSplit(s: string, b: string, t: string, a: string, b': string, t': string, a': string)
    requires s == b + t + a == b' + t' + a' && Blank(b) && Blank(a) && Blank(b') && Blank(a')
    requires Stripped(t) && Stripped(t') && t != "" && t' != ""
    ensures t == t'
  {
    assert b + t + a == b + (t + a) && b' + t' + a' == b' + (t' + a');
    FirstOther(s, b, t + a, b', t' + a');
    LastOther(s, b + t, a, b' + t', a');
    assert t == s[|b|..|s| - |a|] && t' == s[|b'|..|s| - |a'|];
  }

  /** Blanks before something else: there is one way to split them off. */
  lemma FirstOther(s: string, b: string, t: string, b': string, t': string)
    requires s == b + t == b' + t' && Blank(b) && Blank(b') && t != "" && t' != ""
    requires !IsSpace(t[0]) && !IsSpace(t'[0])
    ensures |b| == |b'|
  {
    assert s[|b|] == t[0] && s[|b'|] == t'[0];
    assert forall i :: 0 <= i < |b| ==> s[i] == b[i];
    assert forall i :: 0 <= i < |b'| ==> s[i] == b'[i];
  }

  lemma LastOther(s: string, t: string, a: string, t': string, a': string)
    requires s == t + a == t' + a' && Blank(a) && Blank(a') && t != "" && t' != ""
    requires !IsSpace(t[|t| - 1]) && !IsSpace(t'[|t'| - 1])
    ensures |a| == |a'|
  {
    assert s[|t| - 1] == t[|t| - 1] && s[|t'| - 1] == t'[|t'| - 1];
    assert forall i :: |t| <= i < |s| ==> s[i] == a[i - |t|];
    assert forall i :: |t'| <= i < |s| ==> s[i] == a'[i - |t'|];
  }

  lemma StripFixesStripped(s: string)
    requires Stripped(s)
    ensures Strip(s) == s
  {
  }

  function LowerChar(c: char): char {
    if 'A' <= c <= 'Z' then (c as int + 32) as char else c
  }

  function Lower(s: string): (t: string)
    ensures |t| == |s| && forall i :: 0 <= i < |s| ==> t[i] == LowerChar(s[i])
  {
    seq(|s|, i requires 0 <= i < |s| => LowerChar(s[i]))
  }

  /** Dictionary order, as SQL and Python sort strings. */
  predicate Less(a: string, b: string)
    decreases |a|
  {
    b != [] && (a == [] || a[0] < b[0] || (a[0] == b[0] && Less(a[1..], b[1..])))
  }

  lemma {:induction false} LessTotal(a: string, b: string)
    ensures Less(a, b) || a == b || Less(b, a)
    ensures !(Less(a, b) && Less(b, a))
    ensures !Less(a, a)
    decreases |a|
  {
    if a != [] {
      LessTotal(a[1..], a[1..]);
      if b != [] {
        LessTotal(a[1..], b[1..]);
        assert a == [a[0]] + a[1..] && b == [b[0]] + b[1..];
      }
    }
  }

  lemma {:induction false} LessTransitive(a: string, b: string, c: string)
    requires Less(a, b) && Less(b, c)
    ensures Less(a, c)
    decreases |a|
  {
    if a != [] && a[0] == b[0] == c[0] {
      LessTransitive(a[1..], b[1..], c[1..]);
    }
  }

  // ---------------------------------------------------------------- hexadecimal

  /** The digit for `d`, where `ten` is the letter that stands for ten. */
  function Digit(d: nat, ten: char): char
    requires d < 16 && (ten == 'A' || ten == 'a')
  {
    if d < 10 then (d + '0' as int) as char else (d - 10 + ten as int) as char
  }

  /** Most significant digit first, no leading zero: Python `format(n, "X")` with 'A', Go `Text(16)` with 'a'. */
  function Hex(n: nat, ten: char): (s: string)
    requires ten == 'A' || ten == 'a'
    ensures s != []
  {
    (if n < 16 then [] else Hex(n / 16, ten)) + [Digit(n % 16, ten)]
  }

  function DigitValue(c: char): nat {
    if '0' <= c <= '9' then c as int - '0' as int
    else if 'A' <= c <= 'F' then c as int - 'A' as int + 10
    else if 'a' <= c <= 'f' then c as int - 'a' as int + 10
    else 0
  }

  /** `int(s, 16)`. */
  function ParseHex(s: string): nat {
    if s == [] then 0 else ParseHex(s[..|s| - 1]) * 16 + DigitValue(s[|s| - 1])
  }

  lemma DigitHasItsValue(d: nat, ten: char)
    requires d < 16 && (ten == 'A' || ten == 'a')
    ensures DigitValue(Digit(d, ten)) == d
  {
  }

  /** Parsing undoes printing, whichever letters are used; so equal prints mean equal numbers. */
  lemma {:induction false} ParseHexOfHex(n: nat, ten: char)
    requires ten == 'A' || ten == 'a'
    ensures ParseHex(Hex(n, ten)) == n
  {
    var high, low := if n < 16 then [] else Hex(n / 16, ten), n % 16;
    var s := Hex(n, ten);
    assert s == high + [Digit(low, ten)];
    assert s[..|s| - 1] == high && s[|s| - 1] == Digit(low, ten);
    DigitHasItsValue(low, ten);
    if n >= 16 {
      ParseHexOfHex(n / 16, ten);
    }
  }
}
