// internal/identity/handle_input.go: what a caller can tell from the text of a handle.
module HandleInput {
  import opened Wrappers
  import opened Text
  import opened Handles

  // The text that is split at its first dot: trimmed, lower case and without the scheme.
  function Unschemed(raw: string): string {
    TrimPrefix(Lower(TrimSpace(raw)), "wba://")
  }

  function LocalText(t: string): string {
    match IndexOf(t, '.')
    case Some(dot) => TrimSpace(t[..dot])
    case None => t
  }

  // The text of the domain: what follows the first dot, or else the default.
  function DomainText(t: string, didDomain: string): string {
    match IndexOf(t, '.')
    case Some(dot) => t[dot + 1..]
    case None => didDomain
  }

  predicate Accepted(raw: string, didDomain: string) {
    && !HasPrefix(Lower(TrimSpace(raw)), "did:")
    && LocalText(Unschemed(raw)) != "" && NormalizeDomain(DomainText(Unschemed(raw), didDomain)) != ""
  }

  // Exactly these texts are accepted, and this is what becomes of them.
  lemma NormalizeByText(raw: string, didDomain: string)
    ensures var t := Unschemed(raw);
      var local, domain := LocalText(t), NormalizeDomain(DomainText(t, didDomain));
      Normalize(raw, didDomain) ==
        if Accepted(raw, didDomain) then Some(Normalized(local, local + "." + domain, domain, '.' in t)) else None
  {
    hide TrimSpace, Lower, HasPrefix, NormalizeDomain, IndexOf;
    UnschemedEmpty(raw);
  }

  lemma UnschemedEmpty(raw: string)
    ensures Lower(TrimSpace(raw)) == "" ==> Unschemed(raw) == ""
  {}

  // ---- Full handles ----

  // No scheme and no space in front of the local part, and no domain that ends in a dot or a space once
  // its last dot is dropped.
  predicate Settles(raw: string, didDomain: string) {
    var t := Unschemed(raw);
    var local := LocalText(t);
    && local != "" && !IsSpace(local[0]) && !HasPrefix(local, "did:") && !HasPrefix(local, "wba://")
    && !EndsBadly(TrimSpace(Lower(DomainText(t, didDomain))))
  }

  lemma SettledByText(raw: string, didDomain: string)
    requires Accepted(raw, didDomain)
    ensures Normalize(raw, didDomain).Some? && Shaped(Normalize(raw, didDomain).value)
    ensures Settled(Normalize(raw, didDomain).value.full) <==> Settles(raw, didDomain)
  {
    hide Accepted, LocalText, DomainText, Unschemed, Normalize, NormalizeDomain, EndsBadly, TrimSpace, Lower, Shaped,
      Settled;
    NormalizeByText(raw, didDomain);
    NormalizeShape(raw, didDomain);
    SettledShape(Normalize(raw, didDomain).value);
    DomainEnd(DomainText(Unschemed(raw), didDomain));
  }

  lemma SettledShape(n: Normalized)
    requires Shaped(n)
    ensures n.domain != "" && n.local != ""
    ensures Settled(n.full) <==>
      && !IsSpace(n.local[0]) && !HasPrefix(n.local, "did:") && !HasPrefix(n.local, "wba://")
      && !IsSpace(n.domain[|n.domain| - 1]) && n.domain[|n.domain| - 1] != '.'
  {
    hide HasPrefix, IsSpace;
    assert n.full[0] == n.local[0] && n.full[|n.full| - 1] == n.domain[|n.domain| - 1];
    PrefixOfShape(n, "did:");
    PrefixOfShape(n, "wba://");
  }

  lemma PrefixOfShape(n: Normalized, p: string)
    requires Shaped(n) && '.' !in p
    ensures HasPrefix(n.full, p) <==> HasPrefix(n.local, p)
  {
    assert n.full[..|n.local|] == n.local;
    PrefixInLocal(n.local, n, p);
    if HasPrefix(n.local, p) {
      assert n.full[..|p|] == n.local[..|p|];
    }
  }

  // A normalised full handle normalises to itself, whatever the default domain, exactly when the text it
  // was made from settles.
  lemma FullHandleIsFixed(raw: string, didDomain: string, other: string)
    requires Normalize(raw, didDomain).Some?
    ensures var n := Normalize(raw, didDomain).value;
      Normalize(n.full, other) == Some(n.(explicitDomain := true)) <==> Settles(raw, didDomain)
  {
    hide Normalize, Accepted, Settles, Settled, Shaped;
    NormalizeByText(raw, didDomain);
    SettledByText(raw, didDomain);
    ShapedIsFixed(Normalize(raw, didDomain).value, other);
  }

  // ---- Bare handles ----

  // Completing twice is completing once, except for a bare handle that is written after the scheme with
  // a space, or that gets a default domain ending in a space.
  lemma CompleteBareIsIdempotent(target: string, didDomain: string)
    ensures CompleteBare(CompleteBare(target, didDomain), didDomain) == CompleteBare(target, didDomain)
      <==>
      var bare, domain := Unschemed(target), NormalizeDomain(didDomain);
      !(&& !HasPrefix(Lower(TrimSpace(target)), "did:") && bare != "" && '.' !in bare && domain != ""
        && (IsSpace(bare[0]) || IsSpace(domain[|domain| - 1])))
  {
    hide CompleteBare, Unschemed, NormalizeDomain, TrimSpace, HasPrefix, IsSpace;
    CompletedTwice(target, didDomain);
    CompletionByText(target, didDomain);
    TrimSpaceIsTrimmed(target);
  }

  lemma CompletionByText(target: string, didDomain: string)
    ensures var bare, domain := Unschemed(target), NormalizeDomain(didDomain);
      CompleteBare(target, didDomain) ==
        if !HasPrefix(Lower(TrimSpace(target)), "did:") && bare != "" && '.' !in bare && domain != ""
        then bare + "." + domain else TrimSpace(target)
  {
    hide TrimSpace, NormalizeDomain, HasPrefix, Normalize, Accepted;
    TrimSpaceTrims(target);
    UnschemedEmpty(target);
    NormalizeByText(TrimSpace(target), didDomain);
    AcceptedBare(target, didDomain);
  }

  lemma AcceptedBare(target: string, didDomain: string)
    ensures '.' !in Unschemed(target) ==>
      (Accepted(TrimSpace(target), didDomain)
       <==> !HasPrefix(Lower(TrimSpace(target)), "did:") && Unschemed(target) != "" && NormalizeDomain(didDomain) != "")
  {
    hide TrimSpace, NormalizeDomain, HasPrefix;
    TrimSpaceTrims(target);
  }
}
