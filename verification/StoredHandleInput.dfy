// internal/identity/handle_input.go: from the text of the handle fields alone, when they are stored unchanged
// again.
module StoredHandleInput {
  import opened Wrappers
  import opened Text
  import opened Handles
  import opened HandleInput
  import opened StoredHandles

  // Trying without a default first and then with the DID's domain is the same as trying with it at once.
  lemma StoredFullByText(fullHandle: string, didDomain: Option<string>)
    ensures NormalizeStoredFull(fullHandle, didDomain) == Normalize(fullHandle, DidDefault(didDomain))
  {
    hide TrimSpace, Normalize, NormalizeDomain;
    TrimmedNormalizes(fullHandle, "");
    TrimmedNormalizes(fullHandle, DidDefault(didDomain));
    DefaultOnlyForBare(fullHandle, DidDefault(didDomain));
    BlankIsRejected(fullHandle, DidDefault(didDomain));
  }

  lemma DefaultOnlyForBare(raw: string, didDomain: string)
    ensures Normalize(raw, "").Some? ==> Normalize(raw, didDomain) == Normalize(raw, "")
  {
    hide TrimSpace, Normalize, HasPrefix;
    NormalizeByText(raw, "");
    NormalizeByText(raw, didDomain);
    EmptyDomain();
  }

  lemma EmptyDomain()
    ensures NormalizeDomain("") == ""
  {
    assert Lower("") == "";
    EmptyIsBlank();
  }

  lemma BlankIsRejected(raw: string, didDomain: string)
    ensures TrimSpace(raw) == "" ==> Normalize(raw, didDomain).None?
  {
    hide TrimSpace;
  }

  // ---- The stored fields ----

  predicate HandleFits(handle: string) {
    Trimmed(handle) && !HasPrefix(handle, "wba://")
  }

  // A full handle of this local part and domain is rejected when it is read back, and derived anew.
  predicate Rederived(local: string, domain: string) {
    HasPrefix(local, "did:") || TrimSpace(domain) == "."
  }

  // Read off the input: the local part that will be stored has no scheme and no space around it; a full
  // handle that is accepted settles, or is the one that would be derived anyway and is rejected later; one
  // that is not accepted leaves a derived one with an orderly domain, or none, or one that is rejected.
  predicate StoredFits(handle: string, fullHandle: string, didDomain: Option<string>) {
    var default := DidDefault(didDomain);
    var t, derived := Unschemed(fullHandle), NormalizeDomain(default);
    if Accepted(fullHandle, default) then
      var local := if LocalPart(handle) == "" then LocalText(t) else LocalPart(handle);
      HandleFits(local)
      && (Settles(fullHandle, default)
          || (local == LocalText(t) && derived == NormalizeDomain(DomainText(t, default)) && Rederived(local, derived)))
    else if LocalPart(handle) == "" then true
    else
      HandleFits(LocalPart(handle))
      && (derived == "" || !EndsBadly(TrimSpace(Lower(default))) || Rederived(LocalPart(handle), derived))
  }

  // Storing the fields again changes nothing exactly when the input fits.
  lemma StoredFieldsIdempotent(handle: string, fullHandle: string, didDomain: Option<string>)
    ensures var (h, f) := StoredFields(handle, fullHandle, didDomain);
      StoredFields(h, f, didDomain) == (h, f) <==> StoredFits(handle, fullHandle, didDomain)
  {
    hide Stable, StoredFields, StoredFits;
    IdempotentIfStable(handle, fullHandle, didDomain);
    StableByText(handle, fullHandle, didDomain);
  }

  lemma StableByText(handle: string, fullHandle: string, didDomain: Option<string>)
    ensures var (h, f) := StoredFields(handle, fullHandle, didDomain);
      Stable(h, f, didDomain) <==> StoredFits(handle, fullHandle, didDomain)
  {
    hide Stable, StoredFits, StoredFields, Accepted;
    var default := DidDefault(didDomain);
    if Accepted(fullHandle, default) {
      StableAccepted(handle, fullHandle, didDomain);
    } else {
      StableDerived(handle, fullHandle, didDomain);
    }
  }

  lemma StableAccepted(handle: string, fullHandle: string, didDomain: Option<string>)
    requires Accepted(fullHandle, DidDefault(didDomain))
    ensures var (h, f) := StoredFields(handle, fullHandle, didDomain);
      Stable(h, f, didDomain) <==> StoredFits(handle, fullHandle, didDomain)
  {
    hide Accepted, Settled, Settles, Shaped, Normalize, NormalizeStoredFull, LocalPart, LocalText, DomainText,
      DeriveFull, Trimmed, HasPrefix, Rederived, NormalizeDomain, EndsBadly, TrimSpace, Lower;
    var default := DidDefault(didDomain);
    StoredFullByText(fullHandle, didDomain);
    SettledByText(fullHandle, default);
    NormalizeByText(fullHandle, default);
    var n := Normalize(fullHandle, default).value;
    var h := if LocalPart(handle) == "" then n.local else LocalPart(handle);
    LocalPartShape(handle);
    ShapedLocal(n);
    assert StoredFields(handle, fullHandle, didDomain) == (h, n.full);
    if HandleFits(h) {
      DerivedByText(h, didDomain);
      DerivedAgain(h, n, didDomain);
    }
  }

  // The derived full handle of a local part that fits.
  lemma DerivedByText(h: string, didDomain: Option<string>)
    requires h != "" && IsLower(h) && HandleFits(h)
    ensures var domain := NormalizeDomain(DidDefault(didDomain));
      DeriveFull(h, didDomain) == if domain == "" then "" else h + "." + domain
  {
    hide NormalizeDomain;
    LowerOfLower(h);
    TrimmedUnchanged(h);
    EmptyDomain();
  }

  lemma DerivedAgain(h: string, n: Normalized, didDomain: Option<string>)
    requires Shaped(n) && h != "" && IsLower(h) && '.' !in h && HandleFits(h)
    ensures var domain := NormalizeDomain(DidDefault(didDomain));
      NormalizeStoredFull(n.full, didDomain).None? && n.full == DeriveFull(h, didDomain)
      <==> h == n.local && domain == n.domain && Rederived(h, domain)
  {
    hide NormalizeStoredFull, DeriveFull, Rederived, HandleFits, NormalizeDomain;
    var domain := NormalizeDomain(DidDefault(didDomain));
    DerivedByText(h, didDomain);
    if n.full == h + "." + domain {
      FirstDot(n.local, n.domain);
      FirstDot(h, domain);
      assert n.full[..|h|] == h && n.full[..|n.local|] == n.local;
      assert n.full[|h| + 1..] == domain && n.full[|n.local| + 1..] == n.domain;
      RejectedByText(n, didDomain);
    }
  }

  // Reading back a full handle whose local part fits.
  lemma RejectedByText(n: Normalized, didDomain: Option<string>)
    requires Shaped(n) && HandleFits(n.local)
    ensures NormalizeStoredFull(n.full, didDomain).None? <==> Rederived(n.local, n.domain)
  {
    hide NormalizeStoredFull, Normalize, TrimSpace, IsSpace, NormalizeDomain;
    var default := DidDefault(didDomain);
    StoredFullByText(n.full, didDomain);
    NormalizeByText(n.full, default);
    TrimmedShape(n);
    ReadBack(n, default);
  }

  // Trimming such a full handle trims its domain.
  lemma TrimmedShape(n: Normalized)
    requires Shaped(n) && HandleFits(n.local)
    ensures TrimSpace(n.full) == n.local + "." + TrimSpace(n.domain)
    ensures IsLower(TrimSpace(n.domain)) && TrimSpace(n.domain) != "" && Trimmed(TrimSpace(n.domain))
  {
    TrimTail(n.local + ".", n.domain);
    assert n.full == n.local + "." + n.domain;
    TrimSpaceKeepsLower(n.domain);
    TrimSpaceIsTrimmed(n.domain);
  }

  lemma TrimTail(a: string, b: string)
    requires a != "" && !IsSpace(a[0]) && b != "" && !IsSpace(b[0])
    ensures TrimSpace(a + b) == a + TrimSpace(b) && TrimSpace(b) != ""
  {
    DropTail(a, b, |b|);
    DropSpacesBounds(b, 0, |b|);
    DropSpacesBounds(a + b, 0, |a + b|);
    assert (a + b)[..|a| + DropSpaces(b, 0, |b|)] == a + b[..DropSpaces(b, 0, |b|)];
  }

  lemma {:induction false} DropTail(a: string, b: string, j: nat)
    requires b != "" && !IsSpace(b[0]) && 0 < j <= |b|
    ensures DropSpaces(a + b, 0, |a| + j) == |a| + DropSpaces(b, 0, j)
  {
    if IsSpace(b[j - 1]) {
      DropTail(a, b, j - 1);
    }
  }

  lemma ReadBack(n: Normalized, default: string)
    requires Shaped(n) && HandleFits(n.local)
    requires TrimSpace(n.full) == n.local + "." + TrimSpace(n.domain)
    requires IsLower(TrimSpace(n.domain)) && TrimSpace(n.domain) != "" && Trimmed(TrimSpace(n.domain))
    ensures Accepted(n.full, default) <==> !Rederived(n.local, n.domain)
  {
    hide TrimSpace, IsSpace, NormalizeDomain, LocalText, DomainText, Unschemed, HasPrefix, Shaped, HandleFits, Trimmed;
    var rest := TrimSpace(n.domain);
    ShapedLocal(n);
    FitsByDefinition(n.local);
    TrimmedUnchanged(n.local);
    ShortenedText(n);
    SplitText(n.local, rest, default);
    TrimmedDomain(rest);
  }

  lemma ShortenedText(n: Normalized)
    requires Shaped(n) && HandleFits(n.local)
    requires TrimSpace(n.full) == n.local + "." + TrimSpace(n.domain)
    requires IsLower(TrimSpace(n.domain)) && TrimSpace(n.domain) != "" && Trimmed(TrimSpace(n.domain))
    ensures var text := n.local + "." + TrimSpace(n.domain);
      && Unschemed(n.full) == text && Lower(TrimSpace(n.full)) == text
      && (HasPrefix(text, "did:") <==> HasPrefix(n.local, "did:"))
  {
    hide TrimSpace, IsSpace, HasPrefix;
    var text := n.local + "." + TrimSpace(n.domain);
    LowerOfLower(text);
    ShortenedShape(n);
    var m := Normalized(n.local, text, TrimSpace(n.domain), n.explicitDomain);
    PrefixOfShape(m, "did:");
    PrefixOfShape(m, "wba://");
  }

  lemma SplitText(local: string, rest: string, default: string)
    requires '.' !in local && TrimSpace(local) == local
    ensures LocalText(local + "." + rest) == local && DomainText(local + "." + rest, default) == rest
  {
    hide TrimSpace;
    var text := local + "." + rest;
    FirstDot(local, rest);
    assert text[..|local|] == local && text[|local| + 1..] == rest;
  }

  lemma ShortenedShape(n: Normalized)
    requires Shaped(n) && HandleFits(n.local)
    requires IsLower(TrimSpace(n.domain)) && TrimSpace(n.domain) != "" && Trimmed(TrimSpace(n.domain))
    ensures Shaped(Normalized(n.local, n.local + "." + TrimSpace(n.domain), TrimSpace(n.domain), n.explicitDomain))
  {
    hide TrimSpace;
  }

  lemma TrimmedDomain(domain: string)
    requires IsLower(domain) && Trimmed(domain) && domain != ""
    ensures NormalizeDomain(domain) == "" <==> domain == "."
  {
    LowerOfLower(domain);
    TrimmedUnchanged(domain);
  }

  lemma StableDerived(handle: string, fullHandle: string, didDomain: Option<string>)
    requires !Accepted(fullHandle, DidDefault(didDomain))
    ensures var (h, f) := StoredFields(handle, fullHandle, didDomain);
      Stable(h, f, didDomain) <==> StoredFits(handle, fullHandle, didDomain)
  {
    hide Accepted, Settled, Normalize, NormalizeStoredFull, LocalPart, DeriveFull, HandleFits, Rederived,
      NormalizeDomain, EndsBadly, TrimSpace, Lower, Trimmed, HasPrefix;
    StoredFullByText(fullHandle, didDomain);
    NormalizeByText(fullHandle, DidDefault(didDomain));
    LocalPartShape(handle);
    var h := LocalPart(handle);
    FitsByDefinition(h);
    if h != "" && HandleFits(h) {
      DerivedIsStable(h, didDomain);
    }
  }

  lemma FitsByDefinition(h: string)
    ensures HandleFits(h) <==> Trimmed(h) && !HasPrefix(h, "wba://")
  {}

  lemma DerivedIsStable(h: string, didDomain: Option<string>)
    requires h != "" && IsLower(h) && '.' !in h && HandleFits(h)
    ensures var default := DidDefault(didDomain);
      var f, domain := DeriveFull(h, didDomain), NormalizeDomain(default);
      Settled(f) || NormalizeStoredFull(f, didDomain).None?
      <==> domain == "" || !EndsBadly(TrimSpace(Lower(default))) || Rederived(h, domain)
  {
    hide NormalizeStoredFull, DeriveFull, NormalizeDomain, EndsBadly, TrimSpace, IsSpace, Settled, HasPrefix;
    var default := DidDefault(didDomain);
    var domain := NormalizeDomain(default);
    DerivedByText(h, didDomain);
    if domain == "" {
      BlankIsRejected("", default);
      EmptyIsBlank();
      StoredFullByText("", didDomain);
    } else {
      var n := Normalized(h, h + "." + domain, domain, true);
      DomainShape(default);
      DomainEnd(default);
      SettledShape(n);
      RejectedByText(n, didDomain);
    }
  }

  // ---- Well-formed fields ----

  // No space inside the handle, the full handle or the DID's domain, at most one scheme in front of
  // either handle, and no domain ending in two dots.
  predicate PlainFields(handle: string, fullHandle: string, didDomain: Option<string>) {
    var bare := TrimPrefix(TrimSpace(Lower(handle)), "wba://");
    && NoSpace(bare) && !HasPrefix(bare, "wba://")
    && PlainHandle(Unschemed(fullHandle))
    && NoSpace(DidDefault(didDomain)) && !EndsInTwoDots(DidDefault(didDomain))
  }

  lemma WellFormedFieldsFit(handle: string, fullHandle: string, didDomain: Option<string>)
    requires PlainFields(handle, fullHandle, didDomain)
    ensures StoredFits(handle, fullHandle, didDomain)
  {
    hide Accepted, Settles, Settled, Shaped, NormalizeDomain, EndsBadly, TrimSpace, Lower, NoSpace, EndsInTwoDots;
    var default := DidDefault(didDomain);
    PlainLocal(TrimPrefix(TrimSpace(Lower(handle)), "wba://"));
    PlainLocalText(Unschemed(fullHandle));
    PlainDomain(default);
    if Accepted(fullHandle, default) {
      SettledByText(fullHandle, default);
      PlainAccepted(fullHandle, default);
    }
  }

  lemma PlainLocal(bare: string)
    requires NoSpace(bare) && !HasPrefix(bare, "wba://")
    ensures HandleFits(BeforeDot(bare))
  {
    PrefixBeforeDot(bare, "wba://");
  }

  lemma PrefixBeforeDot(s: string, p: string)
    ensures HasPrefix(BeforeDot(s), p) ==> HasPrefix(s, p)
  {
    if HasPrefix(BeforeDot(s), p) {
      assert BeforeDot(s)[..|p|] == s[..|p|];
    }
  }

  lemma PlainLocalText(t: string)
    requires PlainHandle(t)
    ensures HandleFits(LocalText(t))
  {
    hide EndsInTwoDots;
    PrefixBeforeDot(t, "wba://");
    TrimmedUnchanged(BeforeDot(t));
  }

  lemma PlainAccepted(raw: string, default: string)
    requires Accepted(raw, default) && PlainHandle(Unschemed(raw)) && NoSpace(default) && !EndsInTwoDots(default)
    requires Normalize(raw, default).Some? && Shaped(Normalize(raw, default).value)
    ensures Settled(Normalize(raw, default).value.full)
  {
    hide Accepted, Settled, Shaped, NormalizeLower, NoSpace, EndsInTwoDots, PlainHandle;
    PlainSettles(Unschemed(raw), default);
  }
}
