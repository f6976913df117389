// Concrete inputs for the failing half of the conditions proved elsewhere.
module Witnesses {
  import opened Wrappers
  import opened Text
  import Contacts = ContactStore
  import Rebind
  import Naming
  import Recovery
  import opened IdentityIndex
  import opened IdentityIntegrity
  import opened IdentityReplacement
  import Plans = RecoveryProofs
  import Finalizing = RecoveryFinalize
  import IdentityLoad
  import StoredHandles
  import Loads = StoredHandleLoads
  import Outbox
  import Flush = OutboxFlush
  import History = HistoryMerge

  // ---- A DID with space in front ----

  function Named(owner: string, did: string): Contacts.Record {
    Contacts.Record(owner, did, "handle", map[], None, None, None, None, "")
  }

  lemma NamedArguments(owner: string, did: string)
    requires Trimmed(owner)
    ensures var a := Contacts.Arguments(Named(owner, did));
      a.owner == owner && a.handle == Some("handle") && a.did == did
  {
    TrimmedUnchanged("handle");
    TrimmedUnchanged(owner);
  }

  lemma EmptyTables()
    ensures Contacts.Inv(Contacts.State(map[], map[]))
  {}

  // One call is enough: the contact is stored under the DID as given, its binding under the trimmed one.
  lemma UntrimmedDIDBreaksInvariant(now: int)
    ensures var s, a := Contacts.State(map[], map[]), Contacts.Arguments(Named("owner", " did"));
      Contacts.Inv(s) && Contacts.MayClear(s, a, None) && !Contacts.Inv(Contacts.Upsert(s, a, now, None))
  {
    hide Contacts.Inv, Contacts.Upsert, Contacts.Arguments, TrimSpace;
    EmptyTables();
    NamedArguments("owner", " did");
    assert !Trimmed(" did");
    Contacts.UpsertKeepsInv(Contacts.State(map[], map[]), Contacts.Arguments(Named("owner", " did")), now, None);
  }

  // ---- Two owners with one handle ----

  function TwoOwners(): (log: seq<Contacts.Call>) {
    [Contacts.Call(Contacts.Arguments(Named("old", "did:a")), 1),
      Contacts.Call(Contacts.Arguments(Named("new", "did:b")), 2)]
  }

  // After two calls the owners know one handle under two DIDs. Whatever rebind does with that state, each
  // handle keeps one current binding, and the invariant is lost.
  lemma IncompatibleRebindIsReachable(t: Contacts.State)
    ensures exists states ::
      && Contacts.IsRun(TwoOwners(), states) && Contacts.Inv(states[2])
      && (Rebind.ReboundStore(states[2], t, "old", "new") ==> Contacts.OneCurrent(t.bindings) && !Contacts.Inv(t))
  {
    hide Contacts.Inv, Contacts.Upsert, Contacts.Arguments, Contacts.MayClear, Rebind.ReboundStore, Rebind.Compatible;
    var zero := Contacts.State(map[], map[]);
    var a, b := Contacts.Arguments(Named("old", "did:a")), Contacts.Arguments(Named("new", "did:b"));
    var one := Contacts.Upsert(zero, a, 1, None);
    var two := Contacts.Upsert(one, b, 2, None);
    EmptyTables();
    NamedArguments("old", "did:a");
    NamedArguments("new", "did:b");
    NobodyHolds(one, a);
    assert a.did == a.boundDid && b.did == b.boundDid;
    Contacts.UpsertKeepsInv(zero, a, 1, None);
    Contacts.UpsertKeepsInv(one, b, 2, None);
    var states := [zero, one, two];
    assert Contacts.Step(states[0], TwoOwners()[0], states[1]) && Contacts.Step(states[1], TwoOwners()[1], states[2]);
    assert Contacts.IsRun(TwoOwners(), states);
    OwnersClash(zero, a, b);
    if Rebind.ReboundStore(two, t, "old", "new") {
      Rebind.RebindKeepsInv(two, t, "old", "new");
    }
  }

  lemma NobodyHolds(one: Contacts.State, a: Contacts.Args)
    requires one == Contacts.Upsert(Contacts.State(map[], map[]), a, 1, None)
    requires a.owner == "old" && a.handle == Some("handle")
    ensures var b := Contacts.Arguments(Named("new", "did:b"));
      Contacts.MayClear(Contacts.State(map[], map[]), a, None) && Contacts.MayClear(one, b, None)
  {
    hide Contacts.Arguments;
    NamedArguments("new", "did:b");
    forall d ensures !Contacts.Holds(one.contacts, "new", "handle", d) {
      Contacts.HoldersAfter(Contacts.State(map[], map[]), a, 1, None, "new", "handle", d);
    }
  }

  lemma OwnersClash(zero: Contacts.State, a: Contacts.Args, b: Contacts.Args)
    requires zero == Contacts.State(map[], map[])
    requires a.owner == "old" && a.handle == Some("handle") && a.did == "did:a" && a.boundDid == a.did
    requires b.owner == "new" && b.handle == Some("handle") && b.did == "did:b" && b.boundDid == b.did
    ensures !Rebind.Compatible(Contacts.Upsert(Contacts.Upsert(zero, a, 1, None), b, 2, None), "old", "new")
  {
    var one := Contacts.Upsert(zero, a, 1, None);
    var two := Contacts.Upsert(one, b, 2, None);
    Contacts.HoldersAfter(zero, a, 1, None, "old", "handle", "did:a");
    Contacts.HoldersAfter(one, b, 2, None, "old", "handle", "did:a");
    Contacts.CurrentAfter(one.bindings, b, 2, "new", "handle", "did:b");
    assert Contacts.Holds(two.contacts, "old", "handle", "did:a");
    assert Contacts.IsCurrent(two.bindings, "new", "handle", "did:b");
    assert !Rebind.CompatibleContact(two, "new", "handle", "did:a");
  }

  // ---- A DID that is changed in its own directory ----

  const DETAILS: Details := Details("d", "", "", "", "", "")
  const NO_KEYS: Keys := Keys(None, "", "", "", "")

  function OneIdentity(): Disk {
    Disk(Index("a", map["a" := Entry("a", "d", "did:old", DETAILS, true)]),
         map["d" := Directory(Some(Payload("did:old", DETAILS)), map[])])
  }

  function NewDID(): SaveInput {
    SaveInput("a", "did:new", DETAILS, "", NO_KEYS, false)
  }

  // Replacing the DID under the same unique id is allowed, and stopping after the identity file is written
  // leaves it naming another DID than its entry.
  lemma InPlaceChangeDisagrees(now: string, domainOf: string -> Option<string>)
    ensures var d := OneIdentity(); var target := ReplaceTarget(d, "a", NewDID(), now, domainOf);
      Kept(d) && Honest(d) && target.Ok? && !Honest(After(d, ReplaceWrites(d.index, target.value), 2))
  {
    hide ReplaceWrites, After, Kept, Read, ReplacedDetails, TrimSpace, WithStoredHandles, Naming.PreferredDirName;
    OneIdentityIsKept();
    PreferredNow();
    OneIdentityIsRead(domainOf);
    TrimmedUnchanged("a");
    TrimmedUnchanged("did:new");
    TrimmedUnchanged("d");
    KeptIsNormal(OneIdentity());
    var target := ReplaceTarget(OneIdentity(), "a", NewDID(), now, domainOf).value;
    TargetIsAdmitted(OneIdentity(), "a", NewDID(), now, domainOf);
    assert "a" in target.linked;
    InPlaceDisagrees(OneIdentity(), target);
  }

  lemma OneIdentityIsKept()
    ensures Kept(OneIdentity()) && Honest(OneIdentity())
  {
    NormalizeIsIdempotent(OneIdentity().index);
  }

  lemma OneIdentityIsRead(domainOf: string -> Option<string>)
    ensures Read(OneIdentity(), "a", domainOf).Ok?
  {
    hide WithStoredHandles, MergedDetails;
  }

  lemma PreferredNow()
    ensures Naming.PreferredDirName("d") == Some("d")
  {
    Naming.CollapseKeepsSafe("d", false);
  }

  // ---- An archived name with space in front ----

  function SpacedIndex(): Index {
    Index("", map[" bob" := Entry(" bob", "dir", "did:a", DETAILS, false)])
  }

  function SpacedPlan(): Recovery.Plan {
    Recovery.Plan("bob", "bob-recover-tmp", [Summary(" bob", "dir", "did:a", DETAILS)], [])
  }

  // The name is archived, and is live all the same when the recovery is over.
  lemma SpacedNameSurvives()
    ensures var plan := SpacedPlan();
      var saved := Plans.WithTemporary(SpacedIndex(), plan, "new", "did:b", DETAILS);
      var result := Recovery.PromoteTarget(saved, plan.finalName, plan.tempName, Recovery.Names(plan.candidates));
      && Plans.Fits(SpacedIndex(), plan) && result.Ok?
      && result.value.credentials.Keys != {plan.finalName} && " bob" in Recovery.Names(plan.candidates)
  {
    hide TrimSpace, Normalize, Recovery.PromoteTarget, Plans.WithTemporary;
    var plan := SpacedPlan();
    SpacedPlanFits();
    NormalizeIsIdempotent(SpacedIndex());
    Plans.PromotionOfPlan(SpacedIndex(), plan, "new", "did:b", DETAILS);
    assert Recovery.Names(plan.candidates)[0] == " bob";
    TrimSpaceTrims(" bob");
    assert !Trimmed(" bob") && !Plans.Recognised(" bob");
    assert {} + {plan.finalName} == {plan.finalName};
    assert (set n | n in Recovery.Names(plan.excluded)) == {};
  }

  lemma SpacedPlanFits()
    ensures Plans.Fits(SpacedIndex(), SpacedPlan())
  {
    hide TrimSpace;
    TrimmedUnchanged("bob");
    TrimmedUnchanged("bob-recover-tmp");
    var names := Recovery.Names(SpacedPlan().candidates);
    assert names == [" bob"] && Recovery.Names(SpacedPlan().excluded) == [];
    assert |"bob"| != |"bob-recover-tmp"|;
  }

  // ---- A handle with three schemes ----

  const SCHEMED: Details := Details("d", "", "", "wba://wba://wba://x", "", "")

  // A recovered identity under its temporary name.
  function SchemedIdentity(): Disk {
    Disk(Index("t", map["t" := Entry("t", "d", "did:x", SCHEMED, true)]),
         map["d" := Directory(Some(Payload("did:x", SCHEMED)), map[])])
  }

  // The configuration cannot be written, and the index is restored; but the identity file stays as the load
  // inside the promotion has rewritten it.
  lemma RestoredRecoveryDiffers(domainOf: string -> Option<string>)
    ensures var saved := SchemedIdentity();
      var out := Recovery.Finalize(saved, "a", "b", "t", ["a"], "a", false, 4, domainOf);
      Kept(saved) && out.result.Err? && out.disk.index == saved.index && out.disk != saved
  {
    hide Recovery.Finalize, Recovery.PromoteTarget, Kept, TrimSpace, Recovery.ArchivedSet, Read;
    var saved := SchemedIdentity();
    NormalizeIsIdempotent(saved.index);
    SchemedIsKept();
    TrimmedUnchanged("a");
    TrimmedUnchanged("b");
    TrimmedUnchanged("t");
    SchemedCanBePromoted();
    SchemedIsRewritten(domainOf);
    Finalizing.PromotedCanBeLoaded(saved, "b", "t", ["a"], domainOf, 4);
    Finalizing.FinalizeOutcome(saved, "b", "t", ["a"], "a", "a", false, 4, domainOf);
  }

  lemma SchemedIsKept()
    ensures Kept(SchemedIdentity())
  {
    NormalizeIsIdempotent(SchemedIdentity().index);
  }

  lemma SchemedCanBePromoted()
    ensures Recovery.PromoteTarget(SchemedIdentity().index, "b", "t", ["a"]).Ok?
  {
    hide TrimSpace, Recovery.ArchivedSet;
    TrimmedUnchanged("b");
    TrimmedUnchanged("t");
  }

  lemma SchemedIsRewritten(domainOf: string -> Option<string>)
    ensures Finalizing.RewritesIdentity(SchemedIdentity(), "t", domainOf)
  {
    hide Normalize, StoredHandles.StoredFields;
    var saved := SchemedIdentity();
    NormalizeIsIdempotent(saved.index);
    var domain := domainOf("did:x");
    Loads.SchemesAreTakenOffLater(domain);
    SchemedReport(domain);
  }

  lemma SchemedReport(domain: Option<string>)
    ensures IdentityLoad.Twice(MergedDetails(SCHEMED, SCHEMED), domain).handle == "wba://x"
  {
    hide StoredHandles.StoredFields;
    var r := StoredHandles.Record(Some("wba://wba://wba://x"), None, "", "");
    Loads.SchemesAreTakenOffLater(domain);
    assert MergedDetails(SCHEMED, SCHEMED) == SCHEMED;
    assert IdentityLoad.Twice(SCHEMED, domain).handle == StoredHandles.Reported(r, domain).0;
  }

  // ---- A message id of spaces ----

  const QUEUED: Outbox.Row := Outbox.Row("me", "you", None, "text", "hi", Outbox.Queued, 0, None, None, None, None,
    None, None, None, None, 0, 0, "")

  function BlankMark(): Outbox.Op {
    Outbox.MarkSent("q", "me", None, Optional(Flush.SentID(" ", "q")), None, None, 1)
  }

  // The client answers with a space for a message id: the row is sent, without a message id, and unsound.
  lemma BlankMessageIDIsLost()
    ensures var ops := [Outbox.Insert("q", QUEUED), BlankMark()];
      && (forall op | op in ops :: Outbox.Permitted(op)) && "q" in Outbox.Run(map[], ops)
      && Outbox.Run(map[], ops)["q"].status == Outbox.Sent && !Outbox.Sound(Outbox.Run(map[], ops)["q"])
  {
    hide TrimSpace, Outbox.Run, Outbox.Apply;
    SpaceIsBlank();
    QueuedThenMarked(QUEUED, BlankMark());
  }

  lemma QueuedThenMarked(row: Outbox.Row, mark: Outbox.Op)
    requires mark.MarkSent? && mark.id == "q" && mark.owner == row.owner
    ensures Outbox.Run(map[], [Outbox.Insert("q", row), mark]) == map["q" := Outbox.Updated(mark, row)]
  {
    hide Outbox.Updated, Outbox.Run;
    var insert := Outbox.Insert("q", row);
    NothingRun();
    Outbox.RunStep(map[], [], insert);
    Outbox.RunStep(map[], [insert], mark);
    assert [] + [insert] == [insert] && [insert] + [mark] == [insert, mark];
  }

  lemma NothingRun()
    ensures Outbox.Run(map[], []) == map[]
  {}

  lemma SpaceIsBlank()
    ensures Blank(" ")
  {
    assert SkipSpaces(" ", 0) == 1;
  }

  // ---- A real id that looks made up ----

  function Said(id: string, body: string): History.Message {
    History.Message(id, "", "", None, "", "", "", body)
  }

  // The second message has no id and is given the key idx:1, which the third one has for its id: that message
  // is dropped although no other has its id.
  lemma MadeUpKeyCollides()
    ensures var xs := [Said("a", "1"), Said("", "2"), Said("idx:1", "3")];
      History.TakeAll(xs).merged == [xs[0], xs[1]] && History.Firsts(xs) == xs && History.Collides(xs)
  {
    var xs := [Said("a", "1"), Said("", "2"), Said("idx:1", "3")];
    assert xs[..2] == [xs[0], xs[1]] && xs[..2][..1] == [xs[0]] && xs[..2][..1][..0] == [];
    assert History.Synthetic(1) == "idx:" + "1" == "idx:1";
    assert History.TakeAll(xs[..2][..1]) == History.Dedup([xs[0]], {"a"});
    assert History.TakeAll(xs[..2]) == History.Dedup([xs[0], xs[1]], {"a", "idx:1"});
    assert History.Firsts(xs[..2][..1]) == [xs[0]] && History.Firsts(xs[..2]) == xs[..2] && History.Firsts(xs) == xs;
    History.DedupIsFirsts(xs);
  }
}
