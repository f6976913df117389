// When loading an identity for a second time leaves everything alone: storedHandleFields of
// internal/identity/handle_input.go, applied twice by each load of internal/identity/store.go.
module StoredHandleLoads {
  import opened Wrappers
  import opened Text
  import opened Handles
  import opened HandleInput
  import opened StoredHandles
  import opened StoredHandleInput

  // The DID names a domain, and not one that ends in a dot or a space once its last dot is dropped.
  predicate Orderly(didDomain: Option<string>) {
    && didDomain.Some? && NormalizeDomain(didDomain.value) != ""
    && !EndsBadly(TrimSpace(Lower(didDomain.value)))
  }

  function RawFields(r: Record): (string, string) {
    (r.payloadHandle.GetOr(r.handle), r.payloadFull.GetOr(r.full))
  }

  // The next load reports the same as the first and finds nothing to write.
  predicate IsQuiet(r: Record, didDomain: Option<string>) {
    var once := Backfilled(r, Reported(r, didDomain));
    Reported(once, didDomain) == Reported(r, didDomain) && Backfilled(once, Reported(once, didDomain)) == once
  }

  // Fields that fit are reported as they are stored, whatever the domain of the DID, and the next load is quiet.
  lemma SecondLoadIsQuiet(r: Record, didDomain: Option<string>)
    requires StoredFits(RawFields(r).0, RawFields(r).1, didDomain)
    ensures Reported(r, didDomain) == StoredFields(RawFields(r).0, RawFields(r).1, didDomain) && IsQuiet(r, didDomain)
  {
    hide StoredFields, StoredFits, Stable;
    StoredFieldsIdempotent(RawFields(r).0, RawFields(r).1, didDomain);
    StableByText(RawFields(r).0, RawFields(r).1, didDomain);
    StableLoadIsQuiet(r, didDomain);
  }

  lemma WellFormedSecondLoadIsQuiet(r: Record, didDomain: Option<string>)
    requires PlainFields(RawFields(r).0, RawFields(r).1, didDomain)
    ensures IsQuiet(r, didDomain)
  {
    hide PlainFields, StoredFits, StoredFields;
    WellFormedFieldsFit(RawFields(r).0, RawFields(r).1, didDomain);
    SecondLoadIsQuiet(r, didDomain);
  }

  // A handle with three schemes: the first load leaves one, the second takes that off as well.
  lemma SchemesAreTakenOffLater(didDomain: Option<string>)
    ensures var r := Record(Some("wba://wba://wba://x"), None, "", "");
      var once := Backfilled(r, Reported(r, didDomain));
      && Reported(r, didDomain).0 == "wba://x" && Reported(once, didDomain).0 == "x"
      && Backfilled(once, Reported(once, didDomain)) != once
  {
    hide LocalPart, NormalizeStoredFull, DeriveFull;
    SchemesInTurn();
  }

  lemma SchemesInTurn()
    ensures LocalPart("wba://wba://wba://x") == "wba://wba://x" && LocalPart("wba://wba://x") == "wba://x"
    ensures LocalPart("wba://x") == "x" && LocalPart("x") == "x"
  {
    hide LocalPart;
    assert "wba://" + "wba://wba://x" == "wba://wba://wba://x" && "wba://" + "wba://x" == "wba://wba://x";
    assert "wba://" + "x" == "wba://x";
    OneSchemeIsTakenOff("wba://wba://x");
    OneSchemeIsTakenOff("wba://x");
    OneSchemeIsTakenOff("x");
    LocalPartFixed("x");
  }

  lemma OneSchemeIsTakenOff(s: string)
    requires IsLower(s) && '.' !in s && s != "" && !IsSpace(s[|s| - 1])
    ensures LocalPart("wba://" + s) == s
  {
    var whole := "wba://" + s;
    LowerOfLower(whole);
    TrimmedUnchanged(whole);
    assert whole[..6] == "wba://" && whole[6..] == s;
  }

  // Stable fields are not necessary for a quiet load: with a DID domain of dots and spaces the fields
  // alternate between two forms, so that applying storedHandleFields twice, as Load does, changes nothing.
  lemma AlternatingFieldsAreQuiet()
    ensures var domain := Some(". . .");
      && StoredFields("h", "h.. ", domain) == ("h", "h.. . ") && StoredFields("h", "h.. . ", domain) == ("h", "h.. ")
      && !Stable("h", "h.. ", domain)
      && var r := Record(Some("h"), Some("h.. "), "h", "h.. "); Backfilled(r, Reported(r, domain)) == r
  {
    hide StoredFields;
    AlternatesThere();
    AlternatesBack();
    IdempotentIfStable("h", "h.. . ", Some(". . ."));
  }

  lemma DottedDomain()
    ensures NormalizeDomain(". . .") == ". . " && NormalizeDomain(". .") == ". " && LocalPart("h") == "h"
  {
    hide TrimSpace;
    LowerOfLower(". . .");
    LowerOfLower(". .");
    LowerOfLower("h");
    TrimmedUnchanged(". . .");
    TrimmedUnchanged(". .");
    TrimmedUnchanged("h");
  }

  lemma TrimTrailing(s: string)
    requires s != "" && Trimmed(s)
    ensures TrimSpace(s + " ") == s
  {
    assert SkipSpaces(s + " ", 0) == 0;
    assert DropSpaces(s + " ", 0, |s| + 1) == DropSpaces(s + " ", 0, |s|) == |s|;
    assert (s + " ")[0..|s|] == s;
  }

  // The shorter form is rejected when it is read back, and the longer one is derived.
  lemma AlternatesThere()
    ensures StoredFields("h", "h.. ", Some(". . .")) == ("h", "h.. . ")
  {
    hide TrimSpace, NormalizeStoredFull, NormalizeDomain, LocalPart;
    DottedDomain();
    var n := Normalized("h", "h.. ", ". ", true);
    assert n.full == n.local + "." + n.domain;
    assert "." + " " == n.domain;
    TrimTrailing(".");
    RejectedByText(n, Some(". . ."));
    DerivedByText("h", Some(". . ."));
    assert "h" + "." + ". . " == "h.. . ";
  }

  // The longer form is accepted, without the last dot of its domain.
  lemma AlternatesBack()
    ensures StoredFields("h", "h.. . ", Some(". . .")) == ("h", "h.. ")
  {
    hide TrimSpace, NormalizeStoredFull, NormalizeDomain, LocalPart, Normalize, LocalText, DomainText, Unschemed,
      Lower, HasPrefix;
    var full, domain := "h.. . ", Some(". . .");
    DottedDomain();
    StoredFullByText(full, domain);
    NormalizeByText(full, ". . .");
    LongerText();
    assert "h" + "." + ". ." == "h.. .";
    TrimmedUnchanged("h");
    SplitText("h", ". .", ". . .");
    assert "h" + "." + ". " == "h.. ";
  }

  lemma LongerText()
    ensures Unschemed("h.. . ") == "h.. ." && !HasPrefix(Lower(TrimSpace("h.. . ")), "did:")
  {
    hide TrimSpace;
    assert "h.. ." + " " == "h.. . ";
    TrimTrailing("h.. .");
    LowerOfLower("h.. .");
  }

  // Nor are they with a DID that names no domain: the full handle is accepted once and then rejected, and the
  // handle that is reported is nothing but a scheme.
  lemma DomainlessFieldsAreQuiet()
    ensures var r := Record(None, Some("wba://wba://wba://.. ."), "", "");
      Reported(r, None) == ("wba://", "") && !Stable("wba://", "", None) && IsQuiet(r, None)
  {
    hide LocalPart, NormalizeStoredFull;
    EmptyIsBlank();
    SchemesAlone();
    AcceptedOnce();
    RejectedThen();
  }

  lemma SchemesAlone()
    ensures LocalPart("") == "" && LocalPart("wba://") == "" && LocalPart("wba://wba://") == "wba://"
  {
    hide LocalPart;
    Slashes();
    NothingLeft("", "");
    NothingLeft("wba://", "");
    OneSchemeIsTakenOff("wba://");
    assert "wba://" + "wba://" == "wba://wba://";
  }

  lemma Slashes()
    ensures !IsSpace('/') && '.' !in "wba://" && IsLower("wba://") && Trimmed("wba://") && !HasPrefix("", "wba://")
    ensures IsLower("") && '.' !in ""
  {}

  lemma NothingLeft(h: string, rest: string)
    requires IsLower(h) && Trimmed(h) && rest == "" && TrimPrefix(h, "wba://") == rest
    ensures LocalPart(h) == ""
  {
    hide HasPrefix;
    LowerOfLower(h);
    TrimmedUnchanged(h);
  }

  // A full handle behind one scheme, trimmed, split at its first dot.
  lemma SchemedFullByText(full: string, local: string, rest: string)
    requires TrimSpace(full) == "wba://" + (local + "." + rest) && IsLower(local) && IsLower(rest)
    requires '.' !in local && TrimSpace(local) == local
    ensures var domain := NormalizeDomain(rest);
      NormalizeStoredFull(full, None) ==
        if local == "" || domain == "" then None else Some(Normalized(local, local + "." + domain, domain, true))
  {
    hide TrimSpace, NormalizeStoredFull, NormalizeDomain, Normalize, LocalText, DomainText;
    var text := local + "." + rest;
    StoredFullByText(full, None);
    NormalizeByText(full, "");
    LowerOfLower("wba://" + text);
    assert ("wba://" + text)[..6] == "wba://" && ("wba://" + text)[6..] == text;
    assert ("wba://" + text)[0] == 'w';
    SplitText(local, rest, "");
    assert text[|local|] == '.';
  }

  lemma AcceptedOnce()
    ensures NormalizeStoredFull("wba://wba://wba://.. .", None)
      == Some(Normalized("wba://wba://", "wba://wba://.. ", ". ", true))
  {
    hide TrimSpace, NormalizeStoredFull, NormalizeDomain, Lower;
    var local, rest := "wba://" + "wba://", ". .";
    Slashes();
    DottedDomain();
    TrimmedUnchanged(local);
    assert "wba://" + (local + "." + rest) == "wba://wba://wba://.. .";
    assert local + "." + ". " == "wba://wba://.. " && local == "wba://wba://";
    TrimmedUnchanged("wba://wba://wba://.. .");
    SchemedFullByText("wba://wba://wba://.. .", local, rest);
  }

  lemma RejectedThen()
    ensures NormalizeStoredFull("wba://wba://.. ", None) == None
  {
    hide TrimSpace, NormalizeStoredFull, NormalizeDomain, Lower;
    var local, rest := "wba://", ".";
    Slashes();
    TrimmedUnchanged(local);
    assert "wba://" + (local + "." + rest) == "wba://wba://..";
    assert "wba://wba://.." + " " == "wba://wba://.. ";
    TrimTrailing("wba://wba://..");
    TrimmedDomain(rest);
    SchemedFullByText("wba://wba://.. ", local, rest);
  }

  // ---- An orderly domain ----

  // For an orderly DID domain a second load is quiet exactly when the stored fields, normalised once, fit.
  lemma QuietExactlyIfFits(r: Record, didDomain: Option<string>)
    requires Orderly(didDomain)
    ensures var (h1, f1) := StoredFields(RawFields(r).0, RawFields(r).1, didDomain);
      IsQuiet(r, didDomain) <==> StoredFits(h1, f1, didDomain)
  {
    hide StoredFields, StoredFits, Stable, Orderly;
    var raw := RawFields(r);
    var first := StoredFields(raw.0, raw.1, didDomain);
    StableByText(first.0, first.1, didDomain);
    var (h, f) := Reported(r, didDomain);
    if Stable(h, f, didDomain) {
      StableLoadIsQuiet(r, didDomain);
    } else if IsQuiet(r, didDomain) {
      NonEmptyHandle(first.0, first.1, didDomain);
      if f == "" {
        BlankHandleIsNotQuiet(first.0, first.1, raw.1, didDomain);
      } else {
        ReturningIsStable(first.0, first.1, didDomain);
      }
      assert false;
    }
  }

  lemma NonEmptyHandle(handle: string, full: string, didDomain: Option<string>)
    ensures var (h, f) := StoredFields(handle, full, didDomain); !Stable(h, f, didDomain) ==> h != ""
  {
    hide StoredFields;
  }

  // ---- Without a full handle ----

  // With an orderly domain only a handle of spaces is left without a full handle, and the next load loses it.
  lemma BlankHandleIsNotQuiet(handle: string, full: string, raw: string, didDomain: Option<string>)
    requires Orderly(didDomain)
    requires var (h, f) := StoredFields(handle, full, didDomain); h != "" && f == ""
    ensures var (h, f) := StoredFields(handle, full, didDomain);
      var (h2, f2) := StoredFields(h, raw, didDomain);
      StoredFields(h2, f2, didDomain) != (h, "")
  {
    hide LocalPart, NormalizeStoredFull, NormalizeDomain, EndsBadly, TrimSpace, Lower, Shaped;
    var (h, f) := StoredFields(handle, full, didDomain);
    var _ := StoredShape(handle, full, didDomain);
    BlankLocal(h);
    NormalizeStoredShape(raw, didDomain);
    EmptyStays(didDomain);
    match NormalizeStoredFull(raw, didDomain)
    case None =>
    case Some(n) =>
      ShapedLocal(n);
      LocalPartEnds(n);
      NormalizeStoredShape(n.full, didDomain);
      if NormalizeStoredFull(n.full, didDomain).Some? {
        ShapedLocal(NormalizeStoredFull(n.full, didDomain).value);
      }
  }

  lemma BlankLocal(h: string)
    requires IsLower(h)
    ensures Blank(h) ==> LocalPart(h) == ""
    ensures Blank(Lower(h)) <==> Blank(h)
  {
    LowerOfLower(h);
  }

  // A local part does not end in a space, so what LocalPart leaves of it is empty or not blank.
  lemma LocalPartEnds(n: Normalized)
    requires Shaped(n)
    ensures LocalPart(n.local) != "" ==> !Blank(LocalPart(n.local))
  {
    hide TrimSpace;
    LowerOfLower(n.local);
    EndIsKept(n.local);
    var t := TrimSpace(n.local);
    var rest := TrimPrefix(t, "wba://");
    TrimSpaceKeepsLower(n.local);
    if rest != "" {
      assert rest[|rest| - 1] == t[|t| - 1];
      NotBlankAtEnd(rest);
      NoDotAfterPrefix(t, rest);
    }
  }

  lemma EndIsKept(s: string)
    requires s != "" && !IsSpace(s[|s| - 1])
    ensures TrimSpace(s) != "" && !IsSpace(TrimSpace(s)[|TrimSpace(s)| - 1])
  {
    SkipSpacesBounds(s, 0);
    SkipSpacesStopAt(s, 0, |s| - 1);
    DropSpacesBounds(s, SkipSpaces(s, 0), |s|);
  }

  lemma NotBlankAtEnd(s: string)
    requires s != "" && !IsSpace(s[|s| - 1])
    ensures !Blank(s)
  {
    EndIsKept(s);
  }

  lemma NoDotAfterPrefix(t: string, rest: string)
    requires '.' !in t && rest == TrimPrefix(t, "wba://")
    ensures BeforeDot(rest) == rest
  {}

  // ---- Lengths ----

  // Normalising a full handle that is not settled makes it shorter.
  lemma UnsettledShrinks(n: Normalized, other: string)
    requires Shaped(n) && !Settled(n.full) && Normalize(n.full, other).Some?
    ensures |Normalize(n.full, other).value.full| < |n.full|
  {
    hide TrimSpace, NormalizeDomain;
    DottedFull(n, other);
    if !Trimmed(n.full) {
      ShorterHandle(n.full, other);
    } else {
      TrimmedUnchanged(n.full);
      LowerOfLower(n.full);
      if HasPrefix(n.full, "wba://") {
        ResultNotLonger(n.full[6..], other);
      } else {
        LastDotIsDropped(n, other);
      }
    }
  }

  lemma DottedFull(n: Normalized, other: string)
    requires Shaped(n) && Normalize(n.full, other).Some?
    ensures Normalize(n.full, other).value.explicitDomain
  {
    hide Normalize;
    TrimSpaceKeepsDot(n.full, |n.local|);
    DottedIgnoresDefault(n.full, other, other);
  }

  lemma LastDotIsDropped(n: Normalized, other: string)
    requires Shaped(n) && !Settled(n.full) && Trimmed(n.full)
    requires !HasPrefix(n.full, "wba://") && !HasPrefix(n.full, "did:") && NormalizeLower(n.full, other).Some?
    ensures |NormalizeLower(n.full, other).value.full| < |n.full|
  {
    hide TrimSpace, HasPrefix, NormalizeDomain, Trimmed, Settled;
    EndsInDot(n);
    FirstDot(n.local, n.domain);
    assert n.full[..|n.local|] == n.local && n.full[|n.local| + 1..] == n.domain;
    TrimmedUnchanged(n.local);
    DomainShrinks(n.domain);
  }

  lemma EndsInDot(n: Normalized)
    requires Shaped(n) && !Settled(n.full) && Trimmed(n.full)
    requires !HasPrefix(n.full, "wba://") && !HasPrefix(n.full, "did:")
    ensures Trimmed(n.local) && Trimmed(n.domain) && n.domain[|n.domain| - 1] == '.'
  {
    hide HasPrefix, IsSpace;
    assert n.full[0] == n.local[0] && n.full[|n.full| - 1] == n.domain[|n.domain| - 1];
  }

  lemma DomainShrinks(domain: string)
    requires IsLower(domain) && Trimmed(domain) && domain != "" && domain[|domain| - 1] == '.'
    ensures |NormalizeDomain(domain)| < |domain|
  {
    hide TrimSpace;
    LowerOfLower(domain);
    TrimmedUnchanged(domain);
  }

  // So a full handle that comes back after two normalisations is settled.
  lemma ReturningFullIsSettled(n: Normalized, didDomain: Option<string>)
    requires Shaped(n) && NormalizeStoredFull(n.full, didDomain).Some?
    requires var m := NormalizeStoredFull(n.full, didDomain).value;
      NormalizeStoredFull(m.full, didDomain).Some? && NormalizeStoredFull(m.full, didDomain).value.full == n.full
    ensures Settled(n.full) && NormalizeStoredFull(n.full, didDomain).value.full == n.full
    ensures NormalizeStoredFull(n.full, didDomain).value.local == n.local
    ensures Trimmed(n.local) && !HasPrefix(n.local, "wba://")
  {
    hide Normalize, NormalizeStoredFull, Settled, Shaped, HasPrefix;
    var m := NormalizeStoredFull(n.full, didDomain).value;
    NormalizeStoredShape(n.full, didDomain);
    StoredFullByText(n.full, didDomain);
    StoredFullByText(m.full, didDomain);
    if !Settled(n.full) {
      UnsettledShrinks(n, DidDefault(didDomain));
      if Settled(m.full) {
        ShapedIsFixed(m, DidDefault(didDomain));
      } else {
        UnsettledShrinks(m, DidDefault(didDomain));
      }
      assert false;
    }
    ShapedIsFixed(n, DidDefault(didDomain));
    SettledLocal(n);
  }

  lemma LocalPartLength(h: string)
    requires IsLower(h) && '.' !in h
    ensures |LocalPart(h)| <= |h| && (|LocalPart(h)| == |h| ==> LocalPart(h) == h)
  {
    LowerOfLower(h);
    NotLonger(h);
    if !Trimmed(h) {
      TrimSpaceShorter(h);
    } else {
      TrimmedUnchanged(h);
    }
  }

  // ---- With a full handle ----

  // Fields that two normalisations return are stable.
  lemma ReturningIsStable(handle: string, full: string, didDomain: Option<string>)
    requires Orderly(didDomain)
    requires var (h, f) := StoredFields(handle, full, didDomain);
      && h != "" && f != ""
      && var (h1, f1) := StoredFields(h, f, didDomain); StoredFields(h1, f1, didDomain) == (h, f)
    ensures var (h, f) := StoredFields(handle, full, didDomain); Stable(h, f, didDomain)
  {
    hide StoredFields, Stable, Orderly, NormalizeStoredFull, Shaped, HasPrefix;
    var (h, f) := StoredFields(handle, full, didDomain);
    var n := StoredShape(handle, full, didDomain);
    if NormalizeStoredFull(f, didDomain).None? {
      RejectedReturns(h, f, didDomain);
    } else if NormalizeStoredFull(NormalizeStoredFull(f, didDomain).value.full, didDomain).None? {
      DerivedReturns(h, f, didDomain);
    } else {
      AcceptedReturns(h, n, didDomain);
    }
  }

  lemma AcceptedReturns(h: string, n: Normalized, didDomain: Option<string>)
    requires h != "" && IsLower(h) && '.' !in h && Shaped(n) && NormalizeStoredFull(n.full, didDomain).Some?
    requires NormalizeStoredFull(NormalizeStoredFull(n.full, didDomain).value.full, didDomain).Some?
    requires var (h1, f1) := StoredFields(h, n.full, didDomain); StoredFields(h1, f1, didDomain) == (h, n.full)
    ensures Stable(h, n.full, didDomain)
  {
    hide NormalizeStoredFull, LocalPart, Shaped, Settled, HasPrefix, DeriveFull;
    ReturningFullIsSettled(n, didDomain);
    ShapedLocal(n);
    LocalPartFixed(n.local);
    LocalPartShape(h);
    LocalPartFixed(h);
    LocalPartLength(h);
    LocalPartLength(LocalPart(h));
  }

  // The full handle is accepted and then rejected: it is the one that is derived.
  lemma DerivedReturns(h: string, f: string, didDomain: Option<string>)
    requires h != "" && IsLower(h) && '.' !in h && f != "" && Orderly(didDomain)
    requires NormalizeStoredFull(f, didDomain).Some?
    requires NormalizeStoredFull(NormalizeStoredFull(f, didDomain).value.full, didDomain).None?
    requires var (h1, f1) := StoredFields(h, f, didDomain); StoredFields(h1, f1, didDomain) == (h, f)
    ensures Stable(h, f, didDomain)
  {
    hide NormalizeStoredFull, LocalPart, Settled, HasPrefix, DeriveFull, NormalizeDomain, EndsBadly;
    SchemeOnlyIsRejected(h, didDomain);
    LocalPartShape(h);
    LocalPartFixed(h);
    LocalPartLength(h);
    LocalPartLength(LocalPart(h));
    if LocalPart(h) != "" {
      DerivedIsStable(h, didDomain);
    }
  }

  // The full handle is rejected: the one that is derived instead comes back.
  lemma RejectedReturns(h: string, f: string, didDomain: Option<string>)
    requires h != "" && IsLower(h) && '.' !in h && f != "" && Orderly(didDomain)
    requires NormalizeStoredFull(f, didDomain).None?
    requires var (h1, f1) := StoredFields(h, f, didDomain); StoredFields(h1, f1, didDomain) == (h, f)
    ensures Stable(h, f, didDomain)
  {
    hide NormalizeStoredFull, LocalPart, Settled, HasPrefix, DeriveFull, NormalizeDomain, EndsBadly;
    LocalPartShape(h);
    LocalPartFixed(h);
    LocalPartLength(h);
    LocalPartLength(LocalPart(h));
    SchemeOnlyIsRejected(LocalPart(h), didDomain);
    EmptyStays(didDomain);
    if LocalPart(h) == h {
      DerivedIsStable(h, didDomain);
      DerivedComesBack(h, didDomain);
    }
  }

  lemma DerivedComesBack(h: string, didDomain: Option<string>)
    requires h != "" && IsLower(h) && '.' !in h && Orderly(didDomain)
    requires var f := DeriveFull(h, didDomain); Settled(f) || NormalizeStoredFull(f, didDomain).None?
    ensures var f := DeriveFull(h, didDomain);
      NormalizeStoredFull(f, didDomain).Some? ==> NormalizeStoredFull(f, didDomain).value.full == f
  {
    hide NormalizeStoredFull, Settled, Shaped, DeriveFull;
    if Settled(DeriveFull(h, didDomain)) {
      SettledIsSome(DeriveFull(h, didDomain));
      var n := DerivedShape(h, didDomain);
      StoredFullFixed(n, didDomain);
    }
  }

  lemma SettledIsSome(full: string)
    requires Settled(full)
    ensures full != ""
  {}

  // A handle of nothing but a scheme has no full handle that can be read back.
  lemma SchemeOnlyIsRejected(h: string, didDomain: Option<string>)
    requires IsLower(h) && '.' !in h && Orderly(didDomain)
    ensures LocalPart(h) == "" ==> NormalizeStoredFull(DeriveFull(h, didDomain), didDomain).None?
  {
    hide NormalizeStoredFull, TrimSpace, NormalizeDomain, EndsBadly, Normalize, LocalText, Accepted, Shaped;
    var f := DeriveFull(h, didDomain);
    LowerOfLower(h);
    TrimSpaceKeepsLower(h);
    NoDotAfterPrefix(TrimSpace(h), TrimPrefix(TrimSpace(h), "wba://"));
    StoredFullByText(f, didDomain);
    BlankIsRejected(f, DidDefault(didDomain));
    EmptyIsBlank();
    if LocalPart(h) == "" && TrimSpace(h) != "" {
      assert TrimSpace(h) == "wba://";
      DomainShape(didDomain.value);
      SchemeAndDomainIsRejected(NormalizeDomain(didDomain.value), DidDefault(didDomain));
    }
  }

  lemma SchemeAndDomainIsRejected(domain: string, default: string)
    requires IsLower(domain) && domain != "" && !IsSpace(domain[0])
    ensures Normalize("wba://" + "." + domain, default).None?
  {
    hide TrimSpace, IsSpace, NormalizeDomain, Normalize;
    var f, rest := "wba://" + "." + domain, TrimSpace(domain);
    assert "wba://" + "." == "wba://.";
    SchemeStart();
    TrimTail("wba://.", domain);
    TrimSpaceKeepsLower(domain);
    LowerOfLower("wba://." + rest);
    NormalizeByText(f, default);
    var t := Unschemed(f);
    assert t == "." + rest by {
      assert ("wba://." + rest)[..6] == "wba://" && ("wba://." + rest)[6..] == "." + rest;
    }
    FirstAt(t, '.', 0);
    assert t[..0] == "";
    EmptyIsBlank();
  }

  lemma SchemeStart()
    ensures !IsSpace('w') && IsLower("wba://.")
  {}
}
