// internal/identity/handle_input.go and store.go: the handle fields kept with an identity, and the
// backfill Load writes for older records.
module StoredHandles {
  import opened Wrappers
  import opened Text
  import opened Handles

  // normalizeStoredFullHandle. didDomain is the domain HandlePathPrefixFromDID finds in the DID, if any.
  function NormalizeStoredFull(fullHandle: string, didDomain: Option<string>): Option<Normalized> {
    var trimmed := TrimSpace(fullHandle);
    if trimmed == "" then None
    else match Normalize(trimmed, "")
      case Some(n) => Some(n)
      case None =>
        match didDomain
        case Some(domain) => Normalize(trimmed, domain)
        case None => None
  }

  // deriveFullHandleFromDID
  function DeriveFull(handle: string, didDomain: Option<string>): string {
    var local := TrimSpace(Lower(handle));
    if local == "" || didDomain.None? || NormalizeDomain(didDomain.value) == "" then ""
    else local + "." + NormalizeDomain(didDomain.value)
  }

  // The local part storedHandleFields takes from the stored handle.
  function LocalPart(handle: string): string {
    BeforeDot(TrimPrefix(TrimSpace(Lower(handle)), "wba://"))
  }

  function BeforeDot(s: string): string {
    match IndexOf(s, '.')
    case Some(dot) => s[..dot]
    case None => s
  }

  // storedHandleFields
  function StoredFields(handle: string, fullHandle: string, didDomain: Option<string>): (string, string) {
    var local := LocalPart(handle);
    match NormalizeStoredFull(fullHandle, didDomain)
    case Some(n) => (if local == "" then n.local else local, n.full)
    case None => if local == "" then ("", "") else (local, DeriveFull(local, didDomain))
  }

  // What the fields must look like to be stored unchanged again: the local part bare, and the full
  // handle either settled or one that is rejected and derived anew each time.
  predicate Stable(handle: string, full: string, didDomain: Option<string>) {
    handle != "" ==>
      && Trimmed(handle) && !HasPrefix(handle, "wba://")
      && (Settled(full) || (NormalizeStoredFull(full, didDomain).None? && full == DeriveFull(handle, didDomain)))
  }

  lemma IdempotentIfStable(handle: string, fullHandle: string, didDomain: Option<string>)
    ensures var (h, f) := StoredFields(handle, fullHandle, didDomain);
      StoredFields(h, f, didDomain) == (h, f) <==> Stable(h, f, didDomain)
  {
    hide Stable, StoredFields, DeriveFull, NormalizeStoredFull;
    var (h, f) := StoredFields(handle, fullHandle, didDomain);
    var n := StoredShape(handle, fullHandle, didDomain);
    if h == "" {
      EmptyStays(didDomain);
    } else if f == "" {
      UnknownDomainStays(h, didDomain);
    } else {
      FullStays(h, n, didDomain);
    }
  }

  lemma EmptyStays(didDomain: Option<string>)
    ensures StoredFields("", "", didDomain) == ("", "") && Stable("", "", didDomain)
  {
    EmptyIsBlank();
    assert Lower("") == "";
  }

  // Every stored full handle is a local part, a dot and a domain; without one nothing could be derived.
  lemma StoredShape(handle: string, fullHandle: string, didDomain: Option<string>) returns (n: Normalized)
    ensures var (h, f) := StoredFields(handle, fullHandle, didDomain);
      && IsLower(h) && '.' !in h
      && (h == "" ==> f == "")
      && (f == "" ==> h == "" || f == DeriveFull(h, didDomain))
      && (f != "" ==> Shaped(n) && n.full == f)
  {
    hide NormalizeStoredFull, DeriveFull, LocalPart, Shaped;
    var (h, f) := StoredFields(handle, fullHandle, didDomain);
    LocalPartShape(handle);
    n := Normalized("", "", "", true);
    match NormalizeStoredFull(fullHandle, didDomain)
    case Some(m) =>
      NormalizeStoredShape(fullHandle, didDomain);
      ShapedLocal(m);
      n := m;
    case None =>
      if f != "" {
        n := DerivedShape(h, didDomain);
      }
  }

  lemma ShapedLocal(n: Normalized)
    requires Shaped(n)
    ensures n.local != "" && n.full != "" && IsLower(n.local) && '.' !in n.local
  {}

  lemma LocalPartShape(handle: string)
    ensures IsLower(LocalPart(handle)) && '.' !in LocalPart(handle)
  {
    LowerKeepsTrim(handle);
    TrimSpaceKeepsLower(Lower(handle));
  }

  lemma NormalizeStoredShape(fullHandle: string, didDomain: Option<string>)
    ensures NormalizeStoredFull(fullHandle, didDomain).Some?
      ==> Shaped(NormalizeStoredFull(fullHandle, didDomain).value)
  {
    hide Normalize, Shaped;
    NormalizeShape(TrimSpace(fullHandle), "");
    if didDomain.Some? {
      NormalizeShape(TrimSpace(fullHandle), didDomain.value);
    }
  }

  lemma DerivedShape(handle: string, didDomain: Option<string>) returns (n: Normalized)
    requires IsLower(handle) && '.' !in handle && DeriveFull(handle, didDomain) != ""
    ensures Shaped(n) && n.full == DeriveFull(handle, didDomain)
  {
    LowerOfLower(handle);
    TrimSpaceKeepsLower(handle);
    TrimSpaceIsTrimmed(handle);
    DomainShape(didDomain.value);
    var local, domain := TrimSpace(handle), NormalizeDomain(didDomain.value);
    n := Normalized(local, local + "." + domain, domain, true);
  }

  lemma LocalPartFixed(h: string)
    requires IsLower(h) && '.' !in h && h != ""
    ensures LocalPart(h) == h <==> Trimmed(h) && !HasPrefix(h, "wba://")
  {
    LowerOfLower(h);
    if Trimmed(h) {
      TrimmedUnchanged(h);
    } else {
      TrimSpaceShorter(h);
    }
  }

  lemma UnknownDomainStays(h: string, didDomain: Option<string>)
    requires IsLower(h) && '.' !in h && h != "" && DeriveFull(h, didDomain) == ""
    ensures StoredFields(h, "", didDomain) == (h, "") <==> Stable(h, "", didDomain)
  {
    hide LocalPart, DeriveFull;
    LocalPartFixed(h);
    EmptyIsBlank();
  }

  // A stored full handle comes back from its own normalisation exactly when it is settled.
  lemma StoredFullFixed(n: Normalized, didDomain: Option<string>)
    requires Shaped(n)
    ensures var r := NormalizeStoredFull(n.full, didDomain);
      (r.Some? && r.value.full == n.full <==> Settled(n.full))
        && (Settled(n.full) ==> r == Some(n.(explicitDomain := true)))
  {
    hide Shaped, Settled, TrimSpace, Normalize;
    ShapedTrims(n);
    var t := TrimSpace(n.full);
    DottedIgnoresDefault(t, "", DidDefault(didDomain));
    TrimmedNormalizes(n.full, "");
    ShapedIsFixed(n, "");
    assert NormalizeStoredFull(n.full, didDomain) == Normalize(t, "");
    NormalizeShape(n.full, "");
    if Normalize(t, "").Some? && Normalize(t, "").value.full == n.full {
      SameSplit(n, Normalize(t, "").value);
    }
  }

  function DidDefault(didDomain: Option<string>): string {
    if didDomain.Some? then didDomain.value else ""
  }

  lemma ShapedTrims(n: Normalized)
    requires Shaped(n)
    ensures TrimSpace(n.full) != "" && TrimSpace(TrimSpace(n.full)) == TrimSpace(n.full) && '.' in TrimSpace(n.full)
  {
    TrimSpaceTrims(n.full);
    TrimSpaceKeepsDot(n.full, |n.local|);
  }

  lemma TrimmedNormalizes(s: string, didDomain: string)
    ensures Normalize(TrimSpace(s), didDomain) == Normalize(s, didDomain)
  {
    hide TrimSpace, NormalizeLower, HasPrefix, TrimPrefix;
    TrimSpaceTrims(s);
  }

  lemma SameSplit(n: Normalized, m: Normalized)
    requires Shaped(n) && Shaped(m) && n.full == m.full
    ensures n.local == m.local && n.domain == m.domain
  {
    FirstDot(n.local, n.domain);
    FirstDot(m.local, m.domain);
    assert n.full[..|n.local|] == n.local && m.full[..|m.local|] == m.local;
    assert n.full[|n.local| + 1..] == n.domain && m.full[|m.local| + 1..] == m.domain;
  }

  lemma FullStays(h: string, n: Normalized, didDomain: Option<string>)
    requires IsLower(h) && '.' !in h && h != "" && Shaped(n)
    ensures StoredFields(h, n.full, didDomain) == (h, n.full) <==> Stable(h, n.full, didDomain)
  {
    hide LocalPart, DeriveFull, NormalizeStoredFull, Settled, Shaped;
    LocalPartFixed(h);
    StoredFullFixed(n, didDomain);
    ShapedLocal(n);
    if LocalPart(h) != h && Settled(n.full) && n.local == h {
      SettledLocal(n);
    }
  }

  lemma SettledLocal(n: Normalized)
    requires Shaped(n) && Settled(n.full)
    ensures Trimmed(n.local) && !HasPrefix(n.local, "wba://")
  {
    assert n.full[0] == n.local[0];
    assert n.full == n.local + ("." + n.domain);
    if HasPrefix(n.local, "wba://") {
      LongerKeepsPrefix(n.local, "." + n.domain, "wba://");
    }
  }

  lemma LongerKeepsPrefix(s: string, more: string, p: string)
    requires HasPrefix(s, p)
    ensures HasPrefix(s + more, p)
  {
    assert (s + more)[..|p|] == s[..|p|];
  }

  // ---- Load and its backfill ----

  // The handle fields in the identity payload, None when they are absent, and those in the index entry.
  datatype Record = Record(payloadHandle: Option<string>, payloadFull: Option<string>, handle: string, full: string)

  // The fields Load reports: storedHandleFields is applied when reading and again by the backfill.
  function Reported(r: Record, didDomain: Option<string>): (string, string) {
    var (h, f) := StoredFields(r.payloadHandle.GetOr(r.handle), r.payloadFull.GetOr(r.full), didDomain);
    StoredFields(h, f, didDomain)
  }

  // persistStoredHandleBackfill: a reported field that is not blank ends up in both places.
  function Backfilled(r: Record, reported: (string, string)): Record {
    var (h, f) := reported;
    Record(if h != "" then Some(h) else r.payloadHandle, if f != "" then Some(f) else r.payloadFull,
           if h != "" then h else r.handle, if f != "" then f else r.full)
  }

  // What one Load reports, the next reports again and leaves alone, as soon as the reported fields are stable.
  lemma StableLoadIsQuiet(r: Record, didDomain: Option<string>)
    requires var (h, f) := Reported(r, didDomain); Stable(h, f, didDomain)
    ensures var once := Backfilled(r, Reported(r, didDomain));
      Reported(once, didDomain) == Reported(r, didDomain) && Backfilled(once, Reported(once, didDomain)) == once
  {
    hide StoredFields, Stable;
    var raw := (r.payloadHandle.GetOr(r.handle), r.payloadFull.GetOr(r.full));
    var first := StoredFields(raw.0, raw.1, didDomain);
    var (h, f) := Reported(r, didDomain);
    IdempotentIfStable(first.0, first.1, didDomain);
    var _ := StoredShape(first.0, first.1, didDomain);
    if h != "" && f == "" {
      MissingFullStaysMissing(raw.0, raw.1, didDomain);
    }
  }

  // The one case in which the next Load reads something else: no full handle can be stored for this
  // identity, so an old rejected spelling is still there.
  lemma MissingFullStaysMissing(handle: string, full: string, didDomain: Option<string>)
    requires var (h1, f1) := StoredFields(handle, full, didDomain);
      var (h, f) := StoredFields(h1, f1, didDomain);
      h != "" && f == "" && StoredFields(h, "", didDomain) == (h, "")
    ensures var (h1, f1) := StoredFields(handle, full, didDomain);
      var (h, f) := StoredFields(h1, f1, didDomain);
      var (h2, f2) := StoredFields(h, full, didDomain);
      StoredFields(h2, f2, didDomain) == (h, "")
  {
    hide LocalPart, Settled, Shaped, Normalize, TrimSpace;
    var (h1, f1) := StoredFields(handle, full, didDomain);
    NormalizeStoredShape(full, didDomain);
    NormalizeStoredShape(f1, didDomain);
    NormalizeStoredShape("", didDomain);
    EmptyIsBlank();
    if NormalizeStoredFull(f1, didDomain).Some? {
      ShapedLocal(NormalizeStoredFull(f1, didDomain).value);
    }
  }
}
