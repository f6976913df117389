// internal/identity/handle_input.go: bare, full and wba:// handles.
module Handles {
  import opened Wrappers
  import opened Text

  datatype Normalized = Normalized(local: string, full: string, domain: string, explicitDomain: bool)

  // normalizeHandleDomain
  function NormalizeDomain(domain: string): string {
    TrimDot(TrimSpace(Lower(domain)))
  }

  function TrimDot(s: string): string {
    if s != "" && s[|s| - 1] == '.' then s[..|s| - 1] else s
  }

  // NormalizeHandleInput; None for every rejected input.
  function Normalize(raw: string, didDomain: string): Option<Normalized> {
    var lower := Lower(TrimSpace(raw));
    if lower == "" || HasPrefix(lower, "did:") then None
    else NormalizeLower(TrimPrefix(lower, "wba://"), didDomain)
  }

  function NormalizeLower(handle: string, didDomain: string): Option<Normalized> {
    if handle == "" then None
    else match IndexOf(handle, '.')
      case Some(dot) =>
        var local, domain := TrimSpace(handle[..dot]), NormalizeDomain(handle[dot + 1..]);
        if local == "" || domain == "" then None else Some(Normalized(local, local + "." + domain, domain, true))
      case None =>
        var domain := NormalizeDomain(didDomain);
        if domain == "" then None else Some(Normalized(handle, handle + "." + domain, domain, false))
  }

  // CompleteBareHandle
  function CompleteBare(target: string, didDomain: string): string {
    var trimmed := TrimSpace(target);
    if trimmed == "" then ""
    else if HasPrefix(Lower(trimmed), "did:") then trimmed
    else match Normalize(trimmed, didDomain)
      case None => trimmed
      case Some(n) => if n.explicitDomain then trimmed else n.full
  }

  // ---- Facts about the string operations ----

  lemma LowerKeepsTrim(s: string)
    ensures Trimmed(Lower(s)) <==> Trimmed(s)
    ensures IsLower(Lower(s))
  {
    assert forall i | 0 <= i < |s| :: LowerChar(LowerChar(s[i])) == LowerChar(s[i]);
  }

  lemma TrimSpaceKeepsLower(s: string)
    requires IsLower(s)
    ensures IsLower(TrimSpace(s))
    ensures '.' !in s ==> '.' !in TrimSpace(s)
  {
    SkipSpacesBounds(s, 0);
    DropSpacesBounds(s, SkipSpaces(s, 0), |s|);
  }

  // What NormalizeDomain leaves: lower case, no space in front.
  lemma DomainShape(domain: string)
    ensures IsLower(NormalizeDomain(domain))
    ensures NormalizeDomain(domain) != "" ==> !IsSpace(NormalizeDomain(domain)[0])
  {
    LowerKeepsTrim(domain);
    TrimSpaceKeepsLower(Lower(domain));
    TrimSpaceIsTrimmed(Lower(domain));
  }

  lemma DomainIsFixed(domain: string)
    requires IsLower(domain) && domain != "" && !IsSpace(domain[0])
    ensures NormalizeDomain(domain) == domain <==> !IsSpace(domain[|domain| - 1]) && domain[|domain| - 1] != '.'
  {
    LowerOfLower(domain);
    TrimSpaceTrims(domain);
    var t := TrimSpace(domain);
    if Trimmed(domain) {
      TrimmedUnchanged(domain);
    } else {
      TrimSpaceShorter(domain);
    }
  }

  lemma TrimSpaceShorter(s: string)
    requires !Trimmed(s)
    ensures |TrimSpace(s)| < |s|
  {
    SkipSpacesBounds(s, 0);
    DropSpacesBounds(s, SkipSpaces(s, 0), |s|);
  }

  lemma FirstAt(s: string, c: char, at: nat)
    requires at < |s| && s[at] == c && c !in s[..at]
    ensures IndexOf(s, c) == Some(at)
  {
    assert c in s;
    var i := IndexOf(s, c).value;
    assert forall k | 0 <= k < at :: s[..at][k] == s[k];
    assert forall k | 0 <= k < i :: s[..i][k] == s[k];
  }

  lemma FirstDot(local: string, domain: string)
    requires '.' !in local
    ensures IndexOf(local + "." + domain, '.') == Some(|local|)
  {
    var s := local + "." + domain;
    assert s[..|local|] == local;
    FirstAt(s, '.', |local|);
  }

  // ---- The shape of a normalised handle ----

  ghost predicate Shaped(n: Normalized) {
    && n.full == n.local + "." + n.domain
    && n.local != "" && n.domain != ""
    && IsLower(n.local) && IsLower(n.domain) && '.' !in n.local
    && !IsSpace(n.local[|n.local| - 1]) && !IsSpace(n.domain[0])
    && (n.explicitDomain ==> !IsSpace(n.local[0]))
  }

  lemma NormalizeShape(raw: string, didDomain: string)
    ensures Normalize(raw, didDomain).Some? ==> Shaped(Normalize(raw, didDomain).value)
  {
    TrimSpaceIsTrimmed(raw);
    var lower := Lower(TrimSpace(raw));
    LowerKeepsTrim(TrimSpace(raw));
    if Normalize(raw, didDomain).Some? {
      ShapeOfLower(TrimPrefix(lower, "wba://"), didDomain);
    }
  }

  lemma ShapeOfLower(handle: string, didDomain: string)
    requires IsLower(handle) && (handle != "" ==> !IsSpace(handle[|handle| - 1]))
    ensures NormalizeLower(handle, didDomain).Some? ==> Shaped(NormalizeLower(handle, didDomain).value)
  {
    match IndexOf(handle, '.')
    case Some(dot) =>
      TrimSpaceKeepsLower(handle[..dot]);
      TrimSpaceIsTrimmed(handle[..dot]);
      DomainShape(handle[dot + 1..]);
    case None =>
      DomainShape(didDomain);
  }

  // The syntactic condition: no scheme in front, no space at either end, no dot at the end.
  predicate Settled(full: string) {
    full != "" && !HasPrefix(full, "did:") && !HasPrefix(full, "wba://")
    && !IsSpace(full[0]) && !IsSpace(full[|full| - 1]) && full[|full| - 1] != '.'
  }

  lemma ShapedIsFixed(n: Normalized, other: string)
    requires Shaped(n)
    ensures Normalize(n.full, other) == Some(n.(explicitDomain := true)) <==> Settled(n.full)
  {
    var f := n.full;
    assert IsLower(f);
    assert f[0] == n.local[0] && f[|f| - 1] == n.domain[|n.domain| - 1];
    if Trimmed(f) {
      TrimmedUnchanged(f);
      LowerOfLower(f);
      if !HasPrefix(f, "did:") {
        TrimmedFullAgain(n, other);
      }
    } else {
      ShorterHandle(f, other);
    }
  }

  lemma TrimmedFullAgain(n: Normalized, other: string)
    requires Shaped(n) && Trimmed(n.full)
    ensures NormalizeLower(TrimPrefix(n.full, "wba://"), other) == Some(n.(explicitDomain := true))
      <==> !HasPrefix(n.full, "wba://") && n.full[|n.full| - 1] != '.'
  {
    if HasPrefix(n.full, "wba://") {
      ResultNotLonger(n.full[6..], other);
    } else {
      SplitAgain(n, other);
    }
  }

  lemma SplitAgain(n: Normalized, other: string)
    requires Shaped(n) && !IsSpace(n.local[0]) && !IsSpace(n.full[|n.full| - 1])
    ensures NormalizeLower(n.full, other) == Some(n.(explicitDomain := true)) <==> n.full[|n.full| - 1] != '.'
  {
    hide TrimSpace, NormalizeDomain, HasPrefix, TrimPrefix;
    var f := n.full;
    assert f[|f| - 1] == n.domain[|n.domain| - 1];
    FirstDot(n.local, n.domain);
    assert f[..|n.local|] == n.local && f[|n.local| + 1..] == n.domain;
    TrimmedUnchanged(n.local);
    DomainIsFixed(n.domain);
    assert NormalizeDomain(n.domain) == n.domain <==> f[|f| - 1] != '.';
  }

  // With an explicit domain the full handle is no longer than what was normalised; a result for a
  // shorter text cannot be the one for the longer.
  lemma ResultNotLonger(handle: string, other: string)
    ensures var r := NormalizeLower(handle, other); r.Some? && r.value.explicitDomain ==> |r.value.full| <= |handle|
  {
    match IndexOf(handle, '.')
    case Some(dot) =>
      NotLonger(handle[..dot]);
      DomainNotLonger(handle[dot + 1..]);
    case None =>
  }

  lemma NotLonger(s: string)
    ensures |TrimSpace(s)| <= |s|
  {
    SkipSpacesBounds(s, 0);
    DropSpacesBounds(s, SkipSpaces(s, 0), |s|);
  }

  lemma DomainNotLonger(domain: string)
    ensures |NormalizeDomain(domain)| <= |domain|
  {
    NotLonger(Lower(domain));
  }

  lemma ShorterHandle(f: string, other: string)
    requires !Trimmed(f)
    ensures Normalize(f, other).Some? && Normalize(f, other).value.explicitDomain
      ==> |Normalize(f, other).value.full| < |f|
  {
    TrimSpaceShorter(f);
    ResultNotLonger(TrimPrefix(Lower(TrimSpace(f)), "wba://"), other);
  }

  // ---- Well-formed input ----

  predicate NoSpace(s: string) {
    forall i | 0 <= i < |s| :: !IsSpace(s[i])
  }

  predicate EndsInTwoDots(s: string) {
    |s| >= 2 && s[|s| - 1] == '.' && s[|s| - 2] == '.'
  }

  predicate PlainHandle(t: string) {
    NoSpace(t) && !EndsInTwoDots(t) && !HasPrefix(t, "did:") && !HasPrefix(t, "wba://")
  }

  // No space inside, at most one wba:// in front and no domain ending in two dots: every such input
  // has a full handle that is its own normal form.
  lemma WellFormedIsFixed(raw: string, didDomain: string, other: string)
    requires PlainHandle(TrimPrefix(Lower(TrimSpace(raw)), "wba://"))
    requires NoSpace(didDomain) && !EndsInTwoDots(didDomain)
    requires Normalize(raw, didDomain).Some?
    ensures var n := Normalize(raw, didDomain).value; Normalize(n.full, other) == Some(n.(explicitDomain := true))
  {
    hide PlainHandle, Settled, Shaped, NormalizeLower, TrimPrefix;
    NormalizeShape(raw, didDomain);
    ShapedIsFixed(Normalize(raw, didDomain).value, other);
    PlainSettles(TrimPrefix(Lower(TrimSpace(raw)), "wba://"), didDomain);
  }

  lemma PlainSettles(t: string, didDomain: string)
    requires PlainHandle(t) && NoSpace(didDomain) && !EndsInTwoDots(didDomain)
    requires NormalizeLower(t, didDomain).Some? && Shaped(NormalizeLower(t, didDomain).value)
    ensures Settled(NormalizeLower(t, didDomain).value.full)
  {
    hide TrimSpace, NormalizeDomain, HasPrefix;
    var n := NormalizeLower(t, didDomain).value;
    PlainDomain(didDomain);
    match IndexOf(t, '.') {
      case Some(dot) =>
        TrimmedUnchanged(t[..dot]);
        PlainDomain(t[dot + 1..]);
      case None =>
    }
    assert n.local == t[..|n.local|];
    PrefixInLocal(t, n, "did:");
    PrefixInLocal(t, n, "wba://");
    assert n.full[0] == n.local[0] && n.full[|n.full| - 1] == n.domain[|n.domain| - 1];
  }

  lemma PlainDomain(domain: string)
    requires NoSpace(domain) && !EndsInTwoDots(domain)
    ensures var d := NormalizeDomain(domain); d != "" ==> !IsSpace(d[|d| - 1]) && d[|d| - 1] != '.'
    ensures TrimSpace(Lower(domain)) == Lower(domain) && !EndsBadly(Lower(domain))
  {
    hide TrimSpace, NormalizeDomain, IsSpace, Lower;
    PlainLower(domain);
    TrimmedUnchanged(Lower(domain));
    DomainEnd(domain);
  }

  lemma PlainLower(domain: string)
    requires NoSpace(domain) && !EndsInTwoDots(domain)
    ensures Trimmed(Lower(domain)) && !EndsBadly(Lower(domain))
  {
    LowerKeepsTrim(domain);
    assert forall i | 0 <= i < |domain| :: IsSpace(Lower(domain)[i]) == IsSpace(domain[i]);
  }

  // A text whose last dot, when it is dropped, leaves another dot or a space at the end.
  predicate EndsBadly(s: string) {
    |s| >= 2 && s[|s| - 1] == '.' && (s[|s| - 2] == '.' || IsSpace(s[|s| - 2]))
  }

  lemma DomainEnd(domain: string)
    ensures var d := NormalizeDomain(domain);
      d != "" ==> (!IsSpace(d[|d| - 1]) && d[|d| - 1] != '.' <==> !EndsBadly(TrimSpace(Lower(domain))))
  {
    hide TrimSpace, IsSpace, Lower;
    TrimSpaceIsTrimmed(Lower(domain));
    DotIsNoSpace();
  }

  lemma DotIsNoSpace()
    ensures !IsSpace('.')
  {}

  lemma PrefixInLocal(t: string, n: Normalized, p: string)
    requires Shaped(n) && |n.local| <= |t| && n.local == t[..|n.local|] && '.' !in p
    ensures HasPrefix(n.full, p) ==> HasPrefix(t, p)
  {
    if HasPrefix(n.full, p) {
      assert forall k | 0 <= k < |p| :: n.full[k] == p[k];
      assert n.full[|n.local|] == '.';
      assert t[..|p|] == p;
    }
  }

  // ---- CompleteBareHandle ----

  // The second completion only trims.
  lemma CompletedTwice(target: string, didDomain: string)
    ensures CompleteBare(CompleteBare(target, didDomain), didDomain) == CompleteBare(target, didDomain)
      <==> Trimmed(CompleteBare(target, didDomain))
  {
    var once := CompleteBare(target, didDomain);
    TrimSpaceIsTrimmed(target);
    TrimSpaceTrims(TrimSpace(target));
    if once != TrimSpace(target) {
      var n := Normalize(TrimSpace(target), didDomain).value;
      NormalizeShape(TrimSpace(target), didDomain);
      FullHandleStaysExplicit(n, didDomain);
      TrimSpaceTrims(n.full);
    }
  }

  // A full handle is never completed again: the second call only trims it.
  lemma FullHandleStaysExplicit(n: Normalized, didDomain: string)
    requires Shaped(n)
    ensures CompleteBare(n.full, didDomain) == TrimSpace(n.full)
  {
    TrimSpaceTrims(n.full);
    TrimSpaceKeepsDot(n.full, |n.local|);
    DottedIsKept(TrimSpace(n.full), didDomain);
  }

  lemma DottedIsKept(t: string, didDomain: string)
    requires TrimSpace(t) == t && '.' in t
    ensures CompleteBare(t, didDomain) == t
  {
    hide TrimSpace, Lower, HasPrefix, TrimPrefix, NormalizeDomain;
    DotSurvives(t);
  }

  lemma DotSurvives(t: string)
    requires '.' in t
    ensures '.' in TrimPrefix(Lower(t), "wba://")
  {
    var i :| 0 <= i < |t| && t[i] == '.';
    assert Lower(t)[i] == '.';
    DotBehindPrefix(Lower(t), i);
  }

  lemma DotBehindPrefix(s: string, i: nat)
    requires i < |s| && s[i] == '.'
    ensures '.' in TrimPrefix(s, "wba://")
  {
    if HasPrefix(s, "wba://") {
      assert forall k | 0 <= k < 6 :: s[..6][k] == s[k] != '.';
      assert s[6..][i - 6] == s[i];
    }
  }

  // A text with a dot names its own domain; the default is not looked at.
  lemma DottedIgnoresDefault(t: string, one: string, two: string)
    requires '.' in TrimSpace(t)
    ensures Normalize(t, one) == Normalize(t, two)
    ensures Normalize(t, one).Some? ==> Normalize(t, one).value.explicitDomain
  {
    hide TrimSpace, Lower, HasPrefix, TrimPrefix, NormalizeDomain;
    DotSurvives(TrimSpace(t));
  }

  lemma TrimSpaceKeepsDot(s: string, i: nat)
    requires i < |s| && s[i] == '.'
    ensures '.' in TrimSpace(s)
  {
    SkipSpacesStopAt(s, 0, i);
    SkipSpacesBounds(s, 0);
    DropSpacesStopAt(s, SkipSpaces(s, 0), |s|, i);
    DropSpacesBounds(s, SkipSpaces(s, 0), |s|);
    assert TrimSpace(s)[i - SkipSpaces(s, 0)] == '.';
  }

  lemma {:induction false} SkipSpacesStopAt(s: string, from: nat, i: nat)
    requires from <= i < |s| && !IsSpace(s[i])
    ensures SkipSpaces(s, from) <= i
    decreases |s| - from
  {
    if from < i && IsSpace(s[from]) {
      SkipSpacesStopAt(s, from + 1, i);
    }
  }

  lemma {:induction false} DropSpacesStopAt(s: string, from: nat, end: nat, i: nat)
    requires from <= i < end <= |s| && !IsSpace(s[i])
    ensures DropSpaces(s, from, end) > i
    decreases end
  {
    if IsSpace(s[end - 1]) {
      DropSpacesStopAt(s, from, end - 1, i);
    }
  }
}
