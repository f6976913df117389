// internal/message/secure_incoming.go and the callers of the upsert in internal/message/service.go:
// the order in which incoming ciphertext is decrypted, what a decryption does to a message view, and
// what is then written to the store.
module SecureIncoming {
  import opened Wrappers
  import opened Text
  import opened Sorting
  import opened MessageRecords
  import opened MessageStore

  // A message view's content is a JSON string, another JSON value (kept as its encoding), or missing.
  datatype Content = Str(text: string) | Json(encoded: string) | Missing

  datatype View = View(
    id: string, senderDID: string, receiverDID: string, contentType: string, content: Content, kind: string,
    serverSeq: Option<int>, sentAt: string, isRead: bool, senderName: string,
    secure: bool, decryptionState: string, secureControl: bool)

  // What the end-to-end client hands back for one message. payload is its JSON encoding; control says
  // that the payload is a secure_ack or secure_init system message.
  datatype Plaintext = Plaintext(contentType: string, text: string, payload: Option<string>, payloadB64: string,
    control: bool)
  datatype Outcome = Outcome(state: string, plaintext: Option<Plaintext>)

  // ---- Decryption order ----

  function Seq(v: View): int {
    v.serverSeq.GetOr(0)
  }

  predicate DecryptsBefore(a: View, b: View) {
    if Seq(a) == Seq(b) then Less(a.id, b.id)
    else if Seq(a) == 0 then false
    else if Seq(b) == 0 then true
    else Seq(a) < Seq(b)
  }

  predicate NotAfter(a: View, b: View) {
    !DecryptsBefore(b, a)
  }

  function DecryptOrder(views: seq<View>): seq<View> {
    StableSort(views, NotAfter)
  }

  // mapFromAny finds an object: a JSON object, or a text that is not blank and that decodes to one.
  predicate HasBody(c: Content, decodes: string -> bool) {
    match c
    case Str(text) => !Blank(text) && decodes(text)
    case Json(encoded) => encoded != "" && encoded[0] == '{'
    case Missing => false
  }

  // directE2EENotificationFromMessageView makes a notification of a ciphertext.
  predicate IsHanded(v: View, decodes: string -> bool) {
    IsWireType(v.contentType) && HasBody(v.content, decodes) && v.senderDID != "" && v.receiverDID != "" && v.id != ""
  }

  // The messages the loop hands to the client.
  function Handed(views: seq<View>, decodes: string -> bool): seq<View> {
    if views == [] then []
    else (if IsHanded(views[0], decodes) then [views[0]] else []) + Handed(views[1..], decodes)
  }

  // A ciphertext the loop can use: its content is an object or the text of one, and it has an id, a sender and
  // a receiver.
  predicate IsUsable(v: View, decodes: string -> bool) {
    && v.contentType in {"application/anp-direct-init+json", "application/anp-direct-cipher+json"}
    && v.senderDID != "" && v.receiverDID != "" && v.id != ""
    && match v.content
       case Str(text) => TrimSpace(text) != "" && decodes(text)
       case Json(encoded) => "{" <= encoded
       case Missing => false
  }

  predicate Unsequenced(v: View) {
    v.serverSeq == None || v.serverSeq == Some(0)
  }

  // What may come later in the order: a message of a higher sequence number, or of none, ties by id.
  predicate InSequence(a: View, b: View) {
    if Unsequenced(a) then Unsequenced(b) && !Less(b.id, a.id)
    else Unsequenced(b) || a.serverSeq.value < b.serverSeq.value
         || (a.serverSeq == b.serverSeq && !Less(b.id, a.id))
  }

  // The client is handed every usable ciphertext as often as it is in the list, and nothing else: sequenced
  // ones in ascending server order and before all unsequenced ones, ties by id.
  lemma DecryptOrderIsBySequence(views: seq<View>, decodes: string -> bool)
    ensures var handed := Handed(DecryptOrder(views), decodes);
      && (forall v :: multiset(handed)[v] == if IsUsable(v, decodes) then multiset(views)[v] else 0)
      && (forall i, j | 0 <= i < j < |handed| :: InSequence(handed[i], handed[j]))
  {
    hide Less, StableSort, IsHanded, IsUsable;
    NotAfterIsPreorder();
    SortSorts(views, NotAfter);
    SortPermutes(views, NotAfter);
    HandedKeepsOrder(DecryptOrder(views), decodes);
    HandedIsExact(DecryptOrder(views), decodes);
    forall v ensures IsHanded(v, decodes) <==> IsUsable(v, decodes) {
      HandedIsUsable(v, decodes);
    }
  }

  lemma HandedIsUsable(v: View, decodes: string -> bool)
    ensures IsHanded(v, decodes) <==> IsUsable(v, decodes)
  {
    hide TrimSpace;
    if v.content.Json? && v.content.encoded != "" {
      assert v.content.encoded[0] == '{' <==> "{" <= v.content.encoded;
    }
  }

  lemma NotAfterIsPreorder()
    ensures Preorder(NotAfter)
  {
    hide Less;
    forall a, b ensures NotAfter(a, b) || NotAfter(b, a) {
      LessIsTotal(a.id, b.id);
    }
    forall a, b, c | NotAfter(a, b) && NotAfter(b, c) ensures NotAfter(a, c) {
      if Seq(a) == Seq(b) == Seq(c) {
        LessTransitive(a.id, b.id, c.id);
      }
    }
  }

  lemma {:induction false} HandedIsExact(views: seq<View>, decodes: string -> bool)
    ensures forall v :: multiset(Handed(views, decodes))[v] == if IsHanded(v, decodes) then multiset(views)[v] else 0
    decreases |views|
  {
    hide IsHanded;
    if views != [] {
      HandedIsExact(views[1..], decodes);
      assert views == [views[0]] + views[1..];
    }
  }

  lemma {:induction false} HandedKeepsOrder(views: seq<View>, decodes: string -> bool)
    requires Sorted(views, NotAfter)
    ensures Sorted(Handed(views, decodes), NotAfter)
    decreases |views|
  {
    hide NotAfter, IsHanded;
    if views != [] {
      var rest := views[1..];
      var handed := Handed(rest, decodes);
      HandedKeepsOrder(rest, decodes);
      HandedIsExact(rest, decodes);
      forall j | 0 <= j < |handed| ensures NotAfter(views[0], handed[j]) {
        assert handed[j] in multiset(handed);
        assert handed[j] in rest;
      }
    }
  }

  // ---- Applying a decryption ----

  const ATTACHMENT_MANIFEST := "application/anp-attachment-manifest+json"

  // applyDirectE2EEProcessingResult
  function Apply(v: View, outcome: Outcome): View {
    var secured := v.(secure := true);
    if outcome.state == "" then secured
    else
      var stated := secured.(decryptionState := outcome.state);
      if outcome.state != "decrypted" then stated
      else match outcome.plaintext
        case None => stated
        case Some(p) =>
          if p.control then stated.(secureControl := true, kind := "secure_control", content := Str(""))
          else Shown(stated, p)
  }

  function Shown(v: View, p: Plaintext): View {
    var typed := if p.contentType != "" then v.(contentType := p.contentType) else v;
    if p.text != "" then typed.(content := Str(p.text), kind := "text")
    else match p.payload
      case Some(encoded) =>
        typed.(content := Json(encoded), kind := if p.contentType == ATTACHMENT_MANIFEST then "attachment_manifest"
          else "json")
      case None =>
        if p.payloadB64 != "" then typed.(content := Str(p.payloadB64), kind := "binary") else typed
  }

  // ---- Writing views to the store ----

  // stringFromAny, or the JSON encoding when that is empty; an empty JSON string encodes as two quotes.
  function StoredContent(c: Content): string {
    match c
    case Str(text) => if text == "" then "\"\"" else text
    case Json(encoded) => encoded
    case Missing => ""
  }

  datatype Context = Context(ownerDID: string, threadID: string, inbox: bool, credentialName: string)

  // metadata is the JSON encoding of the whole view.
  function RecordOf(v: View, metadata: string, c: Context): Record {
    Record(
      v.id, c.ownerDID, c.threadID, if !c.inbox && v.senderDID == c.ownerDID then 1 else 0, v.senderDID, v.receiverDID,
      "", "", v.contentType, StoredContent(v.content), "", v.serverSeq, v.sentAt, "", v.secure, v.isRead, v.senderName,
      metadata, c.credentialName)
  }

  datatype Encoded = Encoded(view: View, metadata: string, context: Context)

  predicate IsStorable(e: Encoded) {
    !e.view.secureControl && e.view.id != ""
  }

  function Storable(es: seq<Encoded>): seq<Record> {
    if es == [] then []
    else
      var e := es[|es| - 1];
      Storable(es[..|es| - 1]) + if IsStorable(e) then [RecordOf(e.view, e.metadata, e.context)] else []
  }

  // The shared part of persistInboxMessages and persistHistoryMessages; the result of the batch is ignored.
  method Persist(table: MessageTable, es: seq<Encoded>, now: string, failsAt: Option<nat>)
    modifies table
    ensures table.rows == old(table.rows) || table.rows == Replay(old(table.rows), Writes(Storable(es), now))
    ensures failsAt.None? ==> table.rows == Replay(old(table.rows), Writes(Storable(es), now))
  {
    var storable: seq<Record> := [];
    for i := 0 to |es|
      invariant storable == Storable(es[..i])
      invariant table.rows == old(table.rows)
    {
      assert es[..i + 1][..i] == es[..i];
      if es[i].view.secureControl {
        continue;
      }
      if es[i].view.id == "" {
        continue;
      }
      storable := storable + [RecordOf(es[i].view, es[i].metadata, es[i].context)];
    }
    assert es[..|es|] == es;
    var ok := table.StoreMessagesBatch(storable, now, failsAt);
    assert Replay(table.rows, []) == table.rows;
  }

  // The row of a view, column by column. Only history tells the messages the owner has sent.
  lemma ViewIsShown(v: View, metadata: string, c: Context, now: string)
    ensures var row := RowOf(RecordOf(v, metadata, c), now);
      && KeyOf(RecordOf(v, metadata, c)) == Key(v.id, TrimSpace(c.ownerDID))
      && row.envelope.threadID == c.threadID && row.envelope.credentialName == TrimSpace(c.credentialName)
      && (row.envelope.direction == 1 <==> !c.inbox && v.senderDID == c.ownerDID)
      && (row.envelope.direction == 0 || row.envelope.direction == 1)
      && Shows(row.envelope.senderDID, v.senderDID) && Shows(row.envelope.receiverDID, v.receiverDID)
      && row.envelope.groupID.None? && row.envelope.groupDID.None? && row.envelope.title.None?
      && row.contentType == (if TrimSpace(v.contentType) == "" then "text" else v.contentType)
      && row.content == (match v.content
         case Str(text) => if text == "" then "\"\"" else text
         case Json(encoded) => encoded
         case Missing => "")
      && row.serverSeq == v.serverSeq && Shows(row.sentAt, v.sentAt) && row.storedAt == now
      && row.isE2EE == v.secure && row.isRead == v.isRead && Shows(row.senderName, v.senderName)
      && Shows(row.metadata, metadata)
  {
    hide TrimSpace;
    EmptyIsBlank();
  }

  // ---- From ciphertext to stored text ----

  // What a later poll that cannot decrypt writes for the same message: any record still typed as ciphertext.
  predicate IsRepoll(w: Write, key: Key) {
    w.key == key && Wire(w.row)
  }

  ghost predicate SurvivesRepolls(table: map<Key, Row>, key: Key) {
    key in table && forall log: seq<Write> | forall w | w in log :: IsRepoll(w, key) ::
      ShowsText(Replay(table, log), key, table[key].content)
  }

  predicate ShowsText(table: map<Key, Row>, key: Key, text: string) {
    key in table && table[key].content == text
  }

  // Storing a decrypted message, whatever the table holds for it. If its plaintext names a content type
  // of its own, the text is shown and outlives every later poll. If it names none, the message stays
  // typed as ciphertext: its text is shown unless a readable copy is there already, which then stays, and
  // without such a copy the next poll writes the ciphertext back over the text.
  lemma StoredPlaintextSurvives(v: View, p: Plaintext, metadata: string, c: Context, now: string, table: map<Key, Row>)
    requires IsWireType(v.contentType) && !p.control && (p.text != "" || p.payload.Some? || p.payloadB64 != "")
    ensures var r := RecordOf(Apply(v, Outcome("decrypted", Some(p))), metadata, c);
      var k, after := KeyOf(r), Upsert(table, WriteOf(r, now));
      && (SurvivesRepolls(after, k) <==> NamesType(p) || HasReadable(table, k))
      && after[k].content == if NamesType(p) || !HasReadable(table, k) then PlainContent(p) else table[k].content
  {
    hide Apply, RecordOf, RowOf, SurvivesRepolls, PlainContent;
    var r := RecordOf(Apply(v, Outcome("decrypted", Some(p))), metadata, c);
    PlaintextRecord(v, p, metadata, c);
    RowText(r, now);
    StoredRowSurvives(table, WriteOf(r, now));
  }

  predicate HasReadable(table: map<Key, Row>, key: Key) {
    key in table && !Wire(table[key])
  }

  predicate NamesType(p: Plaintext) {
    p.contentType != "" && !IsWireType(p.contentType)
  }

  lemma PlaintextRecord(v: View, p: Plaintext, metadata: string, c: Context)
    requires IsWireType(v.contentType) && !p.control && (p.text != "" || p.payload.Some? || p.payloadB64 != "")
    ensures var r := RecordOf(Apply(v, Outcome("decrypted", Some(p))), metadata, c);
      r.content == PlainContent(p) && (IsWireType(r.contentType) <==> !NamesType(p))
  {
    hide Shown, IsWireType, TrimSpace;
    var stated := v.(secure := true, decryptionState := "decrypted");
    assert Apply(v, Outcome("decrypted", Some(p))) == Shown(stated, p);
    ShownContent(stated, p);
  }

  // Whatever the client answers, the message is marked secure and keeps its ids, times and participants. Only a
  // decryption changes what it says: a control message then says nothing and is marked as one.
  lemma OutcomeIsMarked(v: View, outcome: Outcome)
    ensures var w := Apply(v, outcome);
      var decrypted := outcome.state == "decrypted" && outcome.plaintext.Some?;
      && w == v.(secure := true, decryptionState := w.decryptionState, secureControl := w.secureControl,
                 contentType := w.contentType, content := w.content, kind := w.kind)
      && w.decryptionState == (if outcome.state != "" then outcome.state else v.decryptionState)
      && (w.secureControl <==> v.secureControl || (decrypted && outcome.plaintext.value.control))
      && (!decrypted ==> w.contentType == v.contentType && w.content == v.content && w.kind == v.kind)
      && (decrypted && outcome.plaintext.value.control ==>
            w.content == Str("") && w.kind == "secure_control" && w.contentType == v.contentType)
  {}

  // The kind a decrypted message is shown with is that of its content: text before a payload, a payload before
  // bytes, and what it came with when it has none of them. Nothing else of the message changes but its type.
  lemma KindFitsContent(v: View, p: Plaintext)
    requires !p.control
    ensures var w := Apply(v, Outcome("decrypted", Some(p)));
      var textual, structured := p.text != "", p.text == "" && p.payload.Some?;
      && w == v.(secure := true, decryptionState := "decrypted", contentType := w.contentType, content := w.content,
                 kind := w.kind)
      && (w.contentType == p.contentType || (p.contentType == "" && w.contentType == v.contentType))
      && (textual ==> w.content == Str(p.text) && w.kind == "text")
      && (structured ==> w.content == Json(p.payload.value) && (w.kind == "attachment_manifest" || w.kind == "json"))
      && (structured ==> (w.kind == "attachment_manifest" <==> p.contentType == ATTACHMENT_MANIFEST))
      && (!textual && !structured && p.payloadB64 != "" ==> w.content == Str(p.payloadB64) && w.kind == "binary")
      && (!textual && !structured && p.payloadB64 == "" ==> w.content == v.content && w.kind == v.kind)
  {}

  lemma ShownContent(v: View, p: Plaintext)
    requires IsWireType(v.contentType) && (p.text != "" || p.payload.Some? || p.payloadB64 != "")
    ensures StoredContent(Shown(v, p).content) == PlainContent(p)
    ensures IsWireType(Shown(v, p).contentType) <==> !NamesType(p)
  {}

  lemma RowText(r: Record, now: string)
    ensures WriteOf(r, now).row.content == r.content
    ensures Wire(WriteOf(r, now).row) <==> IsWireType(r.contentType)
  {
    StoredType(r.contentType);
    RowColumns(r, now);
  }

  lemma RowColumns(r: Record, now: string)
    ensures RowOf(r, now).content == r.content && RowOf(r, now).contentType == DefaultString(r.contentType, "text")
  {
  }

  lemma StoredType(t: string)
    ensures IsWireType(DefaultString(t, "text")) <==> IsWireType(t)
  {
    if IsWireType(t) {
      assert Trimmed(t);
      TrimmedUnchanged(t);
    }
  }

  lemma StoredRowSurvives(table: map<Key, Row>, w: Write)
    ensures SurvivesRepolls(Upsert(table, w), w.key) <==> !Wire(w.row) || HasReadable(table, w.key)
    ensures Upsert(table, w)[w.key].content ==
      if !Wire(w.row) || !HasReadable(table, w.key) then w.row.content else table[w.key].content
  {
    TextOutlivesRepolls(Upsert(table, w), w.key);
  }

  function PlainContent(p: Plaintext): string {
    if p.text != "" then p.text else match p.payload case Some(encoded) => encoded case None => p.payloadB64
  }

  lemma TextOutlivesRepolls(table: map<Key, Row>, key: Key)
    requires key in table
    ensures SurvivesRepolls(table, key) <==> !Wire(table[key])
  {
    if Wire(table[key]) {
      var other := table[key].(content := table[key].content + "x");
      var log := [Write(key, other)];
      assert forall w | w in log :: IsRepoll(w, key);
      assert log[..0] == [];
      assert Replay(table, log) == Upsert(Replay(table, []), log[0]);
      assert Replay(table, log)[key].content == table[key].content + "x";
      assert !ShowsText(Replay(table, log), key, table[key].content);
    } else {
      forall log: seq<Write> | forall w | w in log :: IsRepoll(w, key)
        ensures ShowsText(Replay(table, log), key, table[key].content)
      {
        DecryptedTextAndFlagsStay(table, log, key);
      }
    }
  }
}
