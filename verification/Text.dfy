// The string helpers of the Go standard library the program relies on:
// strings.TrimSpace, strings.ToLower (ASCII letters), strings.TrimPrefix,
// strings.Index for one character, byte-wise comparison and %d formatting.
module Text {
  import opened Wrappers

  // Unicode's White_Space property, the set strings.TrimSpace strips.
  predicate IsSpace(c: char) {
    || '\t' <= c <= '\r'
    || c == ' ' || c == '\U{0085}' || c == '\U{00A0}' || c == '\U{1680}'
    || '\U{2000}' <= c <= '\U{200A}'
    || c == '\U{2028}' || c == '\U{2029}' || c == '\U{202F}' || c == '\U{205F}' || c == '\U{3000}'
  }

  // The first position at or after i that does not hold a space.
  function SkipSpaces(s: string, i: nat): nat
    requires i <= |s|
    decreases |s| - i
  {
    if i < |s| && IsSpace(s[i]) then SkipSpaces(s, i + 1) else i
  }

  // The end of s once the spaces after position i are dropped.
  function DropSpaces(s: string, i: nat, j: nat): nat
    requires i <= j <= |s|
  {
    if i < j && IsSpace(s[j - 1]) then DropSpaces(s, i, j - 1) else j
  }

  function TrimSpace(s: string): string {
    var i := SkipSpaces(s, 0);
    SkipSpacesBounds(s, 0);
    DropSpacesBounds(s, i, |s|);
    s[i..DropSpaces(s, i, |s|)]
  }

  lemma {:induction false} SkipSpacesBounds(s: string, i: nat)
    requires i <= |s|
    ensures i <= SkipSpaces(s, i) <= |s|
    ensures SkipSpaces(s, i) < |s| ==> !IsSpace(s[SkipSpaces(s, i)])
    ensures SkipSpaces(s, i) > i ==> IsSpace(s[i])
    decreases |s| - i
  {
    if i < |s| && IsSpace(s[i]) {
      SkipSpacesBounds(s, i + 1);
    }
  }

  lemma {:induction false} DropSpacesBounds(s: string, i: nat, j: nat)
    requires i <= j <= |s|
    ensures i <= DropSpaces(s, i, j) <= j
    ensures i < DropSpaces(s, i, j) ==> !IsSpace(s[DropSpaces(s, i, j) - 1])
    ensures DropSpaces(s, i, j) < j ==> IsSpace(s[j - 1])
    ensures i < j && !IsSpace(s[i]) ==> i < DropSpaces(s, i, j)
    decreases j - i
  {
    if i < j && IsSpace(s[j - 1]) {
      DropSpacesBounds(s, i, j - 1);
    }
  }

  predicate Trimmed(s: string) {
    s == "" || (!IsSpace(s[0]) && !IsSpace(s[|s| - 1]))
  }

  predicate Blank(s: string) {
    TrimSpace(s) == ""
  }

  // TrimSpace returns a trimmed string, leaves exactly the trimmed strings alone
  // and is therefore idempotent.
  lemma TrimSpaceTrims(s: string)
    ensures Trimmed(TrimSpace(s))
    ensures TrimSpace(s) == s <==> Trimmed(s)
    ensures TrimSpace(TrimSpace(s)) == TrimSpace(s)
  {
    TrimSpaceIsTrimmed(s);
    if Trimmed(s) {
      TrimmedUnchanged(s);
    }
    TrimmedUnchanged(TrimSpace(s));
  }

  lemma TrimSpaceIsTrimmed(s: string)
    ensures Trimmed(TrimSpace(s))
  {
    SkipSpacesBounds(s, 0);
    DropSpacesBounds(s, SkipSpaces(s, 0), |s|);
  }

  lemma TrimmedUnchanged(s: string)
    requires Trimmed(s)
    ensures TrimSpace(s) == s
  {
    SkipSpacesBounds(s, 0);
    DropSpacesBounds(s, 0, |s|);
  }

  lemma EmptyIsBlank()
    ensures TrimSpace("") == "" && Blank("")
  {}

  // normalizeOptionalString: a blank value becomes NULL, anything else is trimmed.
  function Optional(s: string): Option<string> {
    if Blank(s) then None else Some(TrimSpace(s))
  }

  // defaultString: a blank value becomes the fallback, anything else is kept as it is.
  function DefaultString(value: string, fallback: string): string {
    if Blank(value) then fallback else value
  }

  function LowerChar(c: char): char {
    if 'A' <= c <= 'Z' then 'a' + (c - 'A') else c
  }

  function Lower(s: string): (r: string)
    ensures |r| == |s|
    ensures forall i | 0 <= i < |s| :: r[i] == LowerChar(s[i])
  {
    if s == "" then "" else [LowerChar(s[0])] + Lower(s[1..])
  }

  predicate IsLower(s: string) {
    forall i | 0 <= i < |s| :: LowerChar(s[i]) == s[i]
  }

  lemma LowerOfLower(s: string)
    requires IsLower(s)
    ensures Lower(s) == s
  {}

  predicate HasPrefix(s: string, p: string) {
    |p| <= |s| && s[..|p|] == p
  }

  function TrimPrefix(s: string, p: string): string {
    if HasPrefix(s, p) then s[|p|..] else s
  }

  // strings.Index(s, string(c)): the first position of c.
  function IndexOf(s: string, c: char): (r: Option<nat>)
    ensures r.Some? ==> r.value < |s| && s[r.value] == c && c !in s[..r.value]
    ensures r.None? <==> c !in s
  {
    if s == "" then None
    else if s[0] == c then Some(0)
    else match IndexOf(s[1..], c) case Some(i) => Some(i + 1) case None => None
  }

  // Go's < on strings.
  predicate Less(a: string, b: string) {
    b != "" && (a == "" || a[0] < b[0] || (a[0] == b[0] && Less(a[1..], b[1..])))
  }

  // Less is a strict total order.
  lemma {:induction false} LessIsTotal(a: string, b: string)
    ensures Less(a, b) || a == b || Less(b, a)
    ensures !(Less(a, b) && Less(b, a))
    ensures !Less(a, a)
  {
    if a != "" && b != "" && a[0] == b[0] {
      LessIsTotal(a[1..], b[1..]);
      assert a == [a[0]] + a[1..] && b == [b[0]] + b[1..];
    }
    if a != "" {
      LessIsTotal(a[1..], a[1..]);
    }
  }

  lemma {:induction false} LessTransitive(a: string, b: string, c: string)
    requires !Less(b, a) && !Less(c, b)
    ensures !Less(c, a)
  {
    if a != "" && b != "" && c != "" && a[0] == b[0] == c[0] {
      LessTransitive(a[1..], b[1..], c[1..]);
    }
  }

  // %d for a natural number.
  function Decimal(n: nat): (r: string)
    ensures r != ""
    ensures forall i | 0 <= i < |r| :: '0' <= r[i] <= '9'
  {
    if n < 10 then [Digit(n)] else Decimal(n / 10) + [Digit(n % 10)]
  }

  function Digit(d: nat): char
    requires d < 10
  {
    '0' + d as char
  }

  lemma {:induction false} DecimalInjective(m: nat, n: nat)
    requires Decimal(m) == Decimal(n)
    ensures m == n
  {
    var s, t := Decimal(m), Decimal(n);
    assert s[|s| - 1] == Digit(m % 10) && t[|t| - 1] == Digit(n % 10);
    assert m % 10 == n % 10;
    if m >= 10 && n >= 10 {
      assert Decimal(m / 10) == s[..|s| - 1] && Decimal(n / 10) == t[..|t| - 1];
      DecimalInjective(m / 10, n / 10);
    } else {
      assert m >= 10 ==> |s| > 1;
      assert n >= 10 ==> |t| > 1;
    }
  }
}
