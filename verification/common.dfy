/** Helpers shared by every component: an Option type, the few string
    operations the scripts use (`includes`, `startsWith`, `trim`), the
    JavaScript whitespace class and integer-to-text conversion. */
module Common {

  datatype Option<+T> = None | Some(value: T)

  /** No element occurs twice. */
  predicate Distinct<T(==)>(s: seq<T>) {
    forall i, j :: 0 <= i < j < |s| ==> s[i] != s[j]
  }

  /** `s.startsWith(p)` */
  predicate StartsWith(s: string, p: string) {
    |p| <= |s| && s[..|p|] == p
  }

  /** `s.endsWith(p)` */
  predicate EndsWith(s: string, p: string) {
    |p| <= |s| && s[|s| - |p|..] == p
  }

  /** A copy of `p` starts at position `i` of `s`. */
  predicate OccursAt(s: string, p: string, i: int) {
    0 <= i <= |s| - |p| && s[i..i + |p|] == p
  }

  /** `s.includes(p)`: some position of `s` starts a copy of `p`. */
  ghost predicate Includes(s: string, p: string) {
    exists i :: OccursAt(s, p, i)
  }

  /** An executable search for `p` in `s`, from position `from` on. */
  function IncludesFrom(s: string, p: string, from: nat): (r: bool)
    requires from <= |s|
    ensures r <==> exists i :: from <= i && OccursAt(s, p, i)
    decreases |s| - from
  {
    if from + |p| > |s| then false
    else if s[from..from + |p|] == p then assert OccursAt(s, p, from); true
    else IncludesFrom(s, p, from + 1)
  }

  /** `s.includes(p)`, computed. */
  function Contains(s: string, p: string): (r: bool)
    ensures r <==> Includes(s, p)
  {
    IncludesFrom(s, p, 0)
  }

  /** The characters JavaScript's `\s` and `String.prototype.trim` treat as
      white space: the WhiteSpace and LineTerminator productions of
      ECMAScript (section 12.2 and 12.3 of ECMA-262). */
  predicate IsJsSpace(c: char) {
    c == '\t' || c == '\n' || c == '\U{B}' || c == '\U{C}' || c == '\r' ||
    c == ' ' || c == '\U{A0}' || c == '\U{1680}' ||
    ('\U{2000}' <= c <= '\U{200A}') ||
    c == '\U{2028}' || c == '\U{2029}' || c == '\U{202F}' ||
    c == '\U{205F}' || c == '\U{3000}' || c == '\U{FEFF}'
  }

  /** `s.trim()` with leading white space removed. */
  function TrimStart(s: string): (r: string)
    ensures |r| <= |s| && r == s[|s| - |r|..]
    ensures r == [] || !IsJsSpace(r[0])
    ensures forall k :: 0 <= k < |s| - |r| ==> IsJsSpace(s[k])
  {
    if s != [] && IsJsSpace(s[0]) then TrimStart(s[1..]) else s
  }

  /** `s.trim()` with trailing white space removed. */
  function TrimEnd(s: string): (r: string)
    ensures |r| <= |s| && r == s[..|r|]
    ensures r == [] || !IsJsSpace(r[|r| - 1])
    ensures forall k :: |r| <= k < |s| ==> IsJsSpace(s[k])
  {
    if s != [] && IsJsSpace(s[|s| - 1]) then TrimEnd(s[..|s| - 1]) else s
  }

  /** `s.trim()`: the longest infix of `s` that neither starts nor ends with
      white space. */
  function Trim(s: string): (r: string)
    ensures var a := |s| - |TrimStart(s)|;
      a + |r| <= |s| && r == s[a..a + |r|] &&
      (forall k :: 0 <= k < a ==> IsJsSpace(s[k])) &&
      (forall k :: a + |r| <= k < |s| ==> IsJsSpace(s[k]))
    ensures r == [] || (!IsJsSpace(r[0]) && !IsJsSpace(r[|r| - 1]))
  {
    var t := TrimStart(s);
    var r := TrimEnd(t);
    var a := |s| - |t|;
    assert r == s[a..a + |r|];
    forall k | a + |r| <= k < |s| ensures IsJsSpace(s[k]) {
      assert s[k] == t[k - a];
    }
    r
  }

  /** Trimming keeps every character that is not white space, so the
      trimmed length is at least the number of such characters. */
  lemma {:induction false} TrimKeepsNonSpace(s: string)
    ensures |Trim(s)| >= CountNonSpace(s)
    ensures |Trim(s)| <= |s|
  {
    var a := TrimStart(s);
    var b := TrimEnd(a);
    CountNonSpaceSplit(s, |s| - |a|);
    CountAllSpace(s[..|s| - |a|]);
    assert s[|s| - |a|..] == a;
    CountNonSpaceSplit(a, |b|);
    CountAllSpace(a[|b|..]);
    assert a[..|b|] == b;
    CountNonSpaceAtMost(b);
  }

  /** The number of characters of `s` that are not white space. */
  function CountNonSpace(s: string): nat {
    if s == [] then 0
    else CountNonSpace(s[..|s| - 1]) + (if IsJsSpace(s[|s| - 1]) then 0 else 1)
  }

  lemma {:induction false} CountNonSpaceAtMost(s: string)
    ensures CountNonSpace(s) <= |s|
  {
    if s != [] { CountNonSpaceAtMost(s[..|s| - 1]); }
  }

  lemma {:induction false} CountAllSpace(s: string)
    requires forall k :: 0 <= k < |s| ==> IsJsSpace(s[k])
    ensures CountNonSpace(s) == 0
  {
    if s != [] { CountAllSpace(s[..|s| - 1]); }
  }

  lemma {:induction false} CountNonSpaceSplit(s: string, n: nat)
    requires n <= |s|
    ensures CountNonSpace(s) == CountNonSpace(s[..n]) + CountNonSpace(s[n..])
    decreases |s| - n
  {
    if n < |s| {
      var t := s[..|s| - 1];
      CountNonSpaceSplit(t, n);
      assert t[..n] == s[..n];
      assert s[n..][..|s[n..]| - 1] == t[n..];
    } else {
      assert s[..n] == s;
    }
  }

  /** Decimal text of a natural number, as JavaScript's `String(n)` writes it. */
  function NatToString(n: nat): (r: string)
    ensures |r| >= 1
    ensures forall k :: 0 <= k < |r| ==> '0' <= r[k] <= '9'
    decreases n
  {
    var d := ['0' + (n % 10) as char];
    if n < 10 then d else NatToString(n / 10) + d
  }

  /** Decimal text of an integer, with a leading minus sign when negative. */
  function IntToString(n: int): (r: string)
    ensures |r| >= 1
    ensures r[0] == '-' <==> n < 0
  {
    if n < 0 then "-" + NatToString(-n) else NatToString(n)
  }

  /** JavaScript's `length` of a string: the number of UTF-16 code units, so
      a character outside the Basic Multilingual Plane counts twice. */
  function Utf16Length(s: string): (n: nat)
    ensures n == |s| + AstralCount(s)
    ensures |s| <= n <= 2 * |s|
  {
    if s == [] then 0
    else
      var init, c := s[..|s| - 1], s[|s| - 1];
      AstralCountSnoc(init, c);
      assert init + [c] == s;
      Utf16Length(init) + (if c as int > 0xFFFF then 2 else 1)
  }

  /** The number of characters of `s` above U+FFFF, each of which UTF-16
      writes as a surrogate pair. */
  function AstralCount(s: string): (n: nat)
    ensures n <= |s|
  {
    if s == [] then 0 else (if s[0] as int > 0xFFFF then 1 else 0) + AstralCount(s[1..])
  }

  lemma {:induction false} AstralCountSnoc(s: string, c: char)
    ensures AstralCount(s + [c]) == AstralCount(s) + (if c as int > 0xFFFF then 1 else 0)
  {
    if s != [] {
      assert (s + [c])[1..] == s[1..] + [c];
      AstralCountSnoc(s[1..], c);
    }
  }

  /** JavaScript truthiness of a value that is a string or absent (`null`
      or `undefined`): absent and empty are falsy. */
  predicate Truthy(v: Option<string>) {
    v.Some? && v.value != ""
  }
}
