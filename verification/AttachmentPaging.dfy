// internal/message/attachment.go: finding an attachment in a message list that is fetched page by page.
module AttachmentPaging {
  import opened Wrappers
  import opened Text

  datatype Attachment = Attachment(
    id: string, filename: string, mimeType: string, size: string, digest: string, objectURI: Option<string>)

  // A decoded message content; Undecodable stands for anything decodeAttachmentContent rejects.
  datatype Content = Undecodable | Decoded(attachments: seq<Attachment>, caption: string)

  datatype Message = Message(id: string, messageID: string, senderDID: string, content: Content)

  datatype Selection = Selection(
    messageID: string, requestedID: string, senderDID: string, attachment: Attachment, objectURI: string,
    caption: string)

  datatype Error = MessageNotFound | MessageInvalid | AttachmentNotFound | AttachmentIDRequired
    | FetchFailed(detail: string)

  function ActualID(m: Message): string {
    if m.messageID == "" then m.id else m.messageID
  }

  predicate Matches(m: Message, requested: string) {
    requested == m.id || requested == ActualID(m)
  }

  // selectAttachmentEntry: without an id the only attachment, with an id the first that has it.
  function SelectEntry(attachments: seq<Attachment>, requested: string): Result<Attachment, Error> {
    if attachments == [] then Err(AttachmentNotFound)
    else if Blank(requested) then if |attachments| > 1 then Err(AttachmentIDRequired) else Ok(attachments[0])
    else FirstWithID(attachments, requested)
  }

  function FirstWithID(attachments: seq<Attachment>, requested: string): Result<Attachment, Error> {
    if attachments == [] then Err(AttachmentNotFound)
    else if attachments[0].id == requested then Ok(attachments[0])
    else FirstWithID(attachments[1..], requested)
  }

  // What a matching message yields.
  function SelectFrom(m: Message, requestedAttachment: string): Result<Selection, Error> {
    match m.content
    case Undecodable => Err(MessageInvalid)
    case Decoded(attachments, caption) =>
      if attachments == [] then Err(MessageInvalid)
      else match SelectEntry(attachments, requestedAttachment)
        case Err(e) => Err(e)
        case Ok(a) =>
          match a.objectURI
          case None => Err(MessageInvalid)
          case Some(uri) => Ok(Selection(ActualID(m), m.id, m.senderDID, a, uri, caption))
  }

  // The first matching message decides.
  function Find(messages: seq<Message>, requested: string, requestedAttachment: string): Result<Selection, Error> {
    if messages == [] then Err(MessageNotFound)
    else if Matches(messages[0], requested) then SelectFrom(messages[0], requestedAttachment)
    else Find(messages[1..], requested, requestedAttachment)
  }

  method FindAttachmentSelection(messages: seq<Message>, requested: string, requestedAttachment: string)
    returns (r: Result<Selection, Error>)
    ensures r == Find(messages, requested, requestedAttachment)
  {
    for i := 0 to |messages|
      invariant Find(messages, requested, requestedAttachment) == Find(messages[i..], requested, requestedAttachment)
    {
      if !Matches(messages[i], requested) {
        continue;
      }
      return SelectFrom(messages[i], requestedAttachment);
    }
    return Err(MessageNotFound);
  }

  predicate IsOwnError(r: Result<Selection, Error>) {
    r.Ok? || (!r.error.MessageNotFound? && !r.error.FetchFailed?)
  }

  // A message that matches never yields MessageNotFound, so the search can tell "not on this page" apart.
  lemma MatchIsDecisive(m: Message, requestedAttachment: string)
    ensures IsOwnError(SelectFrom(m, requestedAttachment))
  {
    match m.content
    case Undecodable =>
    case Decoded(attachments, _) =>
      if attachments != [] {
        EntryErrors(attachments, requestedAttachment);
      }
  }

  lemma {:induction false} EntryErrors(attachments: seq<Attachment>, requested: string)
    ensures FirstWithID(attachments, requested).Ok? || FirstWithID(attachments, requested).error == AttachmentNotFound
  {
    if attachments != [] {
      EntryErrors(attachments[1..], requested);
    }
  }

  lemma {:induction false} FindErrors(messages: seq<Message>, requested: string, requestedAttachment: string)
    ensures var r := Find(messages, requested, requestedAttachment); IsOwnError(r) || r.error == MessageNotFound
  {
    if messages != [] {
      MatchIsDecisive(messages[0], requestedAttachment);
      FindErrors(messages[1..], requested, requestedAttachment);
    }
  }

  lemma {:induction false} FindSplits(before: seq<Message>, after: seq<Message>, requested: string,
                                      requestedAttachment: string)
    ensures Find(before + after, requested, requestedAttachment) ==
      if Find(before, requested, requestedAttachment) == Err(MessageNotFound)
        then Find(after, requested, requestedAttachment)
      else Find(before, requested, requestedAttachment)
  {
    if before == [] {
      assert before + after == after;
    } else {
      assert (before + after)[1..] == before[1..] + after;
      MatchIsDecisive(before[0], requestedAttachment);
      FindSplits(before[1..], after, requested, requestedAttachment);
    }
  }

  // ---- The selection on the fields ----

  predicate IsRequested(m: Message, requested: string) {
    requested == m.id || (m.messageID != "" && requested == m.messageID)
  }

  ghost predicate IsFirstRequested(messages: seq<Message>, i: int, requested: string) {
    0 <= i < |messages| && IsRequested(messages[i], requested)
    && forall j | 0 <= j < i :: !IsRequested(messages[j], requested)
  }

  // Without an id the only attachment, with an id the first that has it.
  ghost predicate IsChosen(attachments: seq<Attachment>, k: int, requested: string) {
    && 0 <= k < |attachments|
    && if TrimSpace(requested) == "" then |attachments| == 1
       else attachments[k].id == requested && forall j | 0 <= j < k :: attachments[j].id != requested
  }

  ghost predicate IsSelection(r: Result<Selection, Error>, m: Message, requested: string) {
    match m.content
    case Undecodable => r == Err(MessageInvalid)
    case Decoded(attachments, caption) =>
      if attachments == [] then r == Err(MessageInvalid)
      else if !exists k :: IsChosen(attachments, k, requested) then
        r == Err(if TrimSpace(requested) == "" then AttachmentIDRequired else AttachmentNotFound)
      else exists k :: IsChosen(attachments, k, requested) && Yields(r, m, attachments[k], caption)
  }

  predicate Yields(r: Result<Selection, Error>, m: Message, a: Attachment, caption: string) {
    match a.objectURI
    case None => r == Err(MessageInvalid)
    case Some(uri) =>
      r == Ok(Selection(if m.messageID == "" then m.id else m.messageID, m.id, m.senderDID, a, uri, caption))
  }

  // The first message that has the requested id under either name decides: its attachment is the only one, or
  // the first with the requested id, and each way in which there is none has its own error.
  lemma {:induction false} FindByFields(messages: seq<Message>, requested: string, requestedAttachment: string)
    ensures var r := Find(messages, requested, requestedAttachment);
      && ((forall m | m in messages :: !IsRequested(m, requested)) ==> r == Err(MessageNotFound))
      && (forall i | IsFirstRequested(messages, i, requested) :: IsSelection(r, messages[i], requestedAttachment))
    decreases |messages|
  {
    hide IsSelection, SelectFrom;
    if messages != [] {
      var first, rest := messages[0], messages[1..];
      assert first in messages && forall m | m in rest :: m in messages;
      FindByFields(rest, requested, requestedAttachment);
      SelectByFields(first, requestedAttachment);
      forall i | IsFirstRequested(messages, i, requested)
        ensures IsSelection(Find(messages, requested, requestedAttachment), messages[i], requestedAttachment)
      {
        if i > 0 {
          assert forall j | 0 <= j < i - 1 :: rest[j] == messages[j + 1];
          assert !IsRequested(messages[0], requested) && IsFirstRequested(rest, i - 1, requested);
        }
      }
    }
  }

  lemma SelectByFields(m: Message, requested: string)
    ensures IsSelection(SelectFrom(m, requested), m, requested)
  {
    hide TrimSpace;
    match m.content
    case Undecodable =>
    case Decoded(attachments, _) =>
      if !Blank(requested) {
        FirstWithIDIsChosen(attachments, requested);
      }
      if |attachments| == 1 && Blank(requested) {
        assert IsChosen(attachments, 0, requested);
      }
  }

  lemma {:induction false} FirstWithIDIsChosen(attachments: seq<Attachment>, requested: string)
    requires TrimSpace(requested) != ""
    ensures FirstWithID(attachments, requested) == Err(AttachmentNotFound)
      <==> forall k :: !IsChosen(attachments, k, requested)
    ensures forall k | IsChosen(attachments, k, requested) :: FirstWithID(attachments, requested) == Ok(attachments[k])
    decreases |attachments|
  {
    hide TrimSpace;
    if attachments != [] {
      var rest := attachments[1..];
      FirstWithIDIsChosen(rest, requested);
      forall k | 0 < k < |attachments| && attachments[0].id != requested
        ensures IsChosen(attachments, k, requested) <==> IsChosen(rest, k - 1, requested)
      {
        assert forall j | 0 <= j < k - 1 :: rest[j] == attachments[j + 1];
        assert forall j | 1 <= j < k :: attachments[j] == rest[j - 1];
      }
      assert attachments[0].id == requested ==> IsChosen(attachments, 0, requested);
      forall k | IsChosen(rest, k, requested) && attachments[0].id != requested
        ensures IsChosen(attachments, k + 1, requested)
      {
        assert forall j | 1 <= j < k + 1 :: attachments[j] == rest[j - 1];
      }
    }
  }

  // ---- Paging ----

  datatype Page = Page(messages: seq<Message>, hasMore: bool)

  // A pager over a stable list: a page is a run of messages starting at skip, has_more says whether
  // messages follow it, and a page before the end is not empty.
  ghost predicate PagesThrough(fetch: nat -> Page, all: seq<Message>) {
    forall skip: nat | skip <= |all| ::
      var page := fetch(skip);
      && page.messages <= all[skip..]
      && (page.hasMore <==> skip + |page.messages| < |all|)
      && (skip < |all| ==> page.messages != [])
  }

  // Fixed-size pages are such a pager, whatever the size.
  function FixedPages(all: seq<Message>, size: nat): nat -> Page
    requires size > 0
  {
    (skip: nat) =>
      if skip >= |all| then Page([], false)
      else if skip + size < |all| then Page(all[skip..skip + size], true)
      else Page(all[skip..], false)
  }

  lemma FixedPagesPageThrough(all: seq<Message>, size: nat)
    requires size > 0
    ensures PagesThrough(FixedPages(all, size), all)
  {
  }

  // The search ends after at most one page per message and finds what searching the whole list at once
  // would find, or fails with the same error. failsAt is the skip at which fetching fails, if any.
  method FindWithPaging(fetch: nat -> Page, ghost all: seq<Message>, requested: string, requestedAttachment: string,
                        failsAt: Option<nat>)
    returns (r: Result<Selection, Error>, pages: nat)
    requires PagesThrough(fetch, all)
    ensures r.Ok? || !r.error.FetchFailed? ==> r == Find(all, requested, requestedAttachment)
    ensures failsAt.None? ==> r.Ok? || !r.error.FetchFailed?
    ensures pages <= |all| + 1
  {
    hide Find;
    var skip := 0;
    pages := 0;
    FindNothing(requested, requestedAttachment);
    while true
      invariant skip <= |all| && pages <= skip
      invariant Find(all[..skip], requested, requestedAttachment) == Err(MessageNotFound)
      decreases |all| - skip
    {
      if failsAt == Some(skip) {
        return Err(FetchFailed("")), pages;
      }
      var page := fetch(skip);
      pages := pages + 1;
      var found := FindAttachmentSelection(page.messages, requested, requestedAttachment);
      PageSplits(all, skip, page.messages, requested, requestedAttachment);
      FindErrors(page.messages, requested, requestedAttachment);
      if found.Ok? {
        return found, pages;
      }
      if found.error != MessageNotFound {
        return found, pages;
      }
      if !page.hasMore || |page.messages| == 0 {
        assert all[..|all|] == all;
        return Err(MessageNotFound), pages;
      }
      skip := skip + |page.messages|;
    }
  }

  lemma FindNothing(requested: string, requestedAttachment: string)
    ensures Find([], requested, requestedAttachment) == Err(MessageNotFound)
  {}

  lemma PageSplits(all: seq<Message>, skip: nat, page: seq<Message>, requested: string, requestedAttachment: string)
    requires skip <= |all| && page <= all[skip..]
    requires Find(all[..skip], requested, requestedAttachment) == Err(MessageNotFound)
    ensures Find(page, requested, requestedAttachment) == Err(MessageNotFound) ==>
      Find(all[..skip + |page|], requested, requestedAttachment) == Err(MessageNotFound)
    ensures Find(page, requested, requestedAttachment) != Err(MessageNotFound) ==>
      Find(all, requested, requestedAttachment) == Find(page, requested, requestedAttachment)
  {
    hide Find;
    var rest := all[skip + |page|..];
    assert all[..skip + |page|] == all[..skip] + page;
    assert all == all[..skip] + (page + rest);
    FindSplits(all[..skip], page, requested, requestedAttachment);
    FindSplits(page, rest, requested, requestedAttachment);
    FindSplits(all[..skip], page + rest, requested, requestedAttachment);
  }
}
