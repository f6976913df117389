// Names the identity store makes up: sanitizeComponent and sanitizeIdentityName of
// internal/identity/layout.go, chooseNamedIdentity and uniqueBackupDir of internal/identity/store.go.
module Naming {
  import opened Wrappers
  import opened Text

  predicate IsSafe(c: char) {
    'A' <= c <= 'Z' || 'a' <= c <= 'z' || '0' <= c <= '9' || c == '.' || c == '_' || c == '-'
  }

  predicate IsPunctuation(c: char) {
    c == '.' || c == '_' || c == '-'
  }

  // Every maximal run of unsafe characters becomes one underscore.
  function Collapse(s: string, inRun: bool): string {
    if s == "" then ""
    else if IsSafe(s[0]) then [s[0]] + Collapse(s[1..], false)
    else if inRun then Collapse(s[1..], true)
    else "_" + Collapse(s[1..], true)
  }

  function TrimPunctuation(s: string): string {
    if s != "" && IsPunctuation(s[0]) then TrimPunctuation(s[1..])
    else if s != "" && IsPunctuation(s[|s| - 1]) then TrimPunctuation(s[..|s| - 1])
    else s
  }

  function SanitizeComponent(raw: string): string {
    TrimPunctuation(Collapse(raw, false))
  }

  function SanitizeIdentityName(raw: string): string {
    SanitizeComponent(Lower(TrimSpace(raw)))
  }

  // preferredDirName: None when nothing is left of the unique id.
  function PreferredDirName(uniqueID: string): Option<string> {
    if SanitizeComponent(uniqueID) == "" then None else Some(SanitizeComponent(uniqueID))
  }

  predicate IsClean(s: string) {
    && (forall i | 0 <= i < |s| :: IsSafe(s[i]))
    && (s == "" || (!IsPunctuation(s[0]) && !IsPunctuation(s[|s| - 1])))
  }

  lemma {:induction false} CollapseIsSafe(s: string, inRun: bool)
    ensures forall i | 0 <= i < |Collapse(s, inRun)| :: IsSafe(Collapse(s, inRun)[i])
    ensures IsLower(s) ==> IsLower(Collapse(s, inRun))
  {
    if s != "" {
      CollapseIsSafe(s[1..], !IsSafe(s[0]));
    }
  }

  lemma {:induction false} TrimPunctuationCleans(s: string)
    requires forall i | 0 <= i < |s| :: IsSafe(s[i])
    ensures IsClean(TrimPunctuation(s))
    ensures IsLower(s) ==> IsLower(TrimPunctuation(s))
    decreases |s|
  {
    if s != "" && IsPunctuation(s[0]) {
      TrimPunctuationCleans(s[1..]);
    } else if s != "" && IsPunctuation(s[|s| - 1]) {
      TrimPunctuationCleans(s[..|s| - 1]);
    }
  }

  lemma {:induction false} CollapseKeepsSafe(s: string, inRun: bool)
    requires forall i | 0 <= i < |s| :: IsSafe(s[i])
    ensures Collapse(s, inRun) == s
  {
    if s != "" {
      CollapseKeepsSafe(s[1..], false);
    }
  }

  // Sanitised names are exactly the clean lower-case strings, and sanitising leaves those alone.
  lemma SanitizedIsFixed(raw: string)
    ensures IsClean(SanitizeIdentityName(raw)) && IsLower(SanitizeIdentityName(raw))
    ensures SanitizeIdentityName(raw) == raw <==> IsClean(raw) && IsLower(raw)
  {
    var lowered := Lower(TrimSpace(raw));
    LowerIsLower(TrimSpace(raw));
    CollapseIsSafe(lowered, false);
    TrimPunctuationCleans(Collapse(lowered, false));
    if IsClean(raw) && IsLower(raw) {
      CleanIsFixed(raw);
    }
  }

  lemma LowerIsLower(s: string)
    ensures IsLower(Lower(s))
  {
  }

  lemma CleanIsFixed(s: string)
    requires IsClean(s) && IsLower(s)
    ensures SanitizeIdentityName(s) == s
  {
    assert Trimmed(s);
    TrimmedUnchanged(s);
    LowerOfLower(s);
    CollapseKeepsSafe(s, false);
  }

  // The temporary recovery name is its own sanitised form, so chooseNamedIdentity returns it whatever
  // names are taken.
  lemma RecoveryNameIsFixed(final: string)
    requires IsClean(final) && IsLower(final) && final != ""
    ensures SanitizeIdentityName(final + "-recover-tmp") == final + "-recover-tmp"
  {
    var suffix := "-recover-tmp";
    var s := final + suffix;
    assert forall i | 0 <= i < |suffix| :: IsSafe(suffix[i]) && LowerChar(suffix[i]) == suffix[i];
    forall i | 0 <= i < |s| ensures IsSafe(s[i]) && LowerChar(s[i]) == s[i] {
      assert i >= |final| ==> s[i] == suffix[i - |final|];
    }
    assert s[|s| - 1] == 'p' && s[0] == final[0];
    CleanIsFixed(s);
  }

  // ---- Fresh names ----

  // base, base-2, base-3, ...
  function Candidate(base: string, k: nat): string
    requires k >= 1
  {
    if k == 1 then base else base + "-" + Decimal(k)
  }

  lemma CandidatesDiffer(base: string, j: nat, k: nat)
    requires 1 <= j < k
    ensures Candidate(base, j) != Candidate(base, k)
  {
    if j == 1 {
      assert |Candidate(base, k)| > |base|;
    } else if Candidate(base, j) == Candidate(base, k) {
      assert Candidate(base, j)[|base| + 1..] == Decimal(j);
      assert Candidate(base, k)[|base| + 1..] == Decimal(k);
      DecimalInjective(j, k);
    }
  }

  ghost function Candidates(base: string, n: nat): set<string> {
    if n == 0 then {} else Candidates(base, n - 1) + {Candidate(base, n)}
  }

  lemma {:induction false} CandidateCount(base: string, n: nat)
    ensures |Candidates(base, n)| == n
    ensures forall x | x in Candidates(base, n) :: exists k: nat :: 1 <= k <= n && x == Candidate(base, k)
  {
    if n > 0 {
      CandidateCount(base, n - 1);
      if Candidate(base, n) in Candidates(base, n - 1) {
        var k: nat :| 1 <= k <= n - 1 && Candidate(base, n) == Candidate(base, k);
        CandidatesDiffer(base, k, n);
      }
    }
  }

  lemma Pigeonhole(base: string, n: nat, used: set<string>)
    requires Candidates(base, n) <= used
    ensures n <= |used|
  {
    CandidateCount(base, n);
    assert used == Candidates(base, n) + (used - Candidates(base, n));
    assert Candidates(base, n) !! (used - Candidates(base, n));
  }

  function BaseName(fallback: string): string {
    var base := SanitizeIdentityName(fallback);
    if base == "" then "identity" else base
  }

  // clock stands for the current Unix time the last resort is named after.
  method ChooseNamedIdentity(requested: string, used: set<string>, fallback: string, clock: nat) returns (name: string)
    ensures SanitizeIdentityName(requested) != "" ==> name == SanitizeIdentityName(requested)
    ensures SanitizeIdentityName(requested) == "" && |used| < 999 ==> name !in used
    ensures SanitizeIdentityName(requested) == "" && |used| < 999 ==>
      exists k: nat :: 1 <= k < 1000 && name == Candidate(BaseName(fallback), k)
        && Candidates(BaseName(fallback), k - 1) <= used
  {
    var sanitized := SanitizeIdentityName(requested);
    if sanitized != "" {
      return sanitized;
    }
    var base := BaseName(fallback);
    if base !in used {
      assert Candidates(base, 0) == {} && Candidate(base, 1) == base;
      return base;
    }
    assert Candidates(base, 1) == Candidates(base, 0) + {base};
    for idx := 2 to 1000
      invariant Candidates(base, idx - 1) <= used
    {
      var candidate := base + "-" + Decimal(idx);
      assert candidate == Candidate(base, idx);
      if candidate !in used {
        return candidate;
      }
    }
    Pigeonhole(base, 999, used);
    name := base + "-" + Decimal(clock);
  }

  // Terminates for every finite set of existing paths.
  method UniqueBackupDir(base: string, existing: set<string>) returns (candidate: string)
    ensures candidate !in existing
    ensures exists k: nat ::
      1 <= k <= |existing| + 1 && candidate == Candidate(base, k) && Candidates(base, k - 1) <= existing
  {
    candidate := base;
    var idx := 2;
    assert Candidates(base, 0) == {};
    while candidate in existing
      invariant idx >= 2 && candidate == Candidate(base, idx - 1) && Candidates(base, idx - 2) <= existing
      invariant idx - 2 <= |existing|
      decreases |existing| + 2 - idx
    {
      Pigeonhole(base, idx - 1, existing);
      candidate := base + "-" + Decimal(idx);
      idx := idx + 1;
    }
  }
}
