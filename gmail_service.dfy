/**
 * What GmailService (gmail_attachment_extractor/gmail_service.py) does with
 * the answers of the Gmail API: listing label ids, collecting message ids
 * page by page, and turning a message payload into a Message with its
 * subject and attachments. The API itself is not modelled; its answers are
 * inputs.
 */
module GmailService {
  import opened Wrappers
  import opened Messages

  // ---------------------------------------------------------------------
  // Labels
  // ---------------------------------------------------------------------

  datatype Label = Label(id: string, name: string)

  /**
   * The answer to the label listing; `labels` is absent when there are none.
   * `LabelListError` is a listing request that raised HttpError, which the
   * source does not catch.
   */
  datatype LabelList = LabelList(labels: Option<seq<Label>>) | LabelListError

  /**
   * The ids of the listed labels, in listed order, or none without a `labels`
   * key; None when the listing raised HttpError.
   */
  function GetLabelIds(response: LabelList): (ids: Option<seq<string>>)
    ensures ids.None? <==> response.LabelListError?
    ensures response.LabelList? && response.labels.None? ==> ids == Some([])
    ensures response.LabelList? && response.labels.Some? ==>
      ids.Some? && |ids.value| == |response.labels.value| &&
      forall k :: 0 <= k < |ids.value| ==> ids.value[k] == response.labels.value[k].id
  {
    match response
    case LabelListError => None
    case LabelList(None) => Some([])
    case LabelList(Some(labels)) => Some(seq(|labels|, k requires 0 <= k < |labels| => labels[k].id))
  }

  // ---------------------------------------------------------------------
  // Message listing
  // ---------------------------------------------------------------------

  /** Appended to every listing query, so that only messages with attachments are listed. */
  const HasAttachment := " has:attachment"

  /** The query actually sent: the caller's query, then " has:attachment". */
  function AttachmentQuery(query: string): (q: string)
    ensures |q| == |query| + |HasAttachment|
    ensures q[..|query|] == query && q[|query|..] == HasAttachment
  {
    query + HasAttachment
  }

  datatype MessageRef = MessageRef(id: string)

  /**
   * The answers the service gives to the listing requests, as a chain. A
   * `Page` carries a `nextPageToken`, and `next` is the answer to the request
   * that sends that token; a `LastPage` carries none. `messages` is absent on
   * a page that lists nothing. `ListError` is a request that raised HttpError.
   */
  datatype ListResponse =
    | LastPage(messages: Option<seq<MessageRef>>)
    | Page(messages: Option<seq<MessageRef>>, nextPageToken: string, next: ListResponse)
    | ListError

  /** One listing request: the query and the page token, if any. */
  datatype ListRequest = ListRequest(q: string, pageToken: Option<string>)

  /** The message ids one answer lists, in order; nothing for a page without `messages`. */
  function PageIds(r: ListResponse): seq<string>
  {
    if r.ListError? || r.messages.None? then []
    else seq(|r.messages.value|, k requires 0 <= k < |r.messages.value| => r.messages.value[k].id)
  }

  /** Every answer in the chain, in the order the requests are sent. */
  function Responses(r: ListResponse): (rs: seq<ListResponse>)
    ensures |rs| > 0 && rs[0] == r
  {
    if r.Page? then [r] + Responses(r.next) else [r]
  }

  /** Prefixes the ids of one page to the ids collected after it; an error stays an error. */
  function Prepend(ids: seq<string>, rest: Option<seq<string>>): Option<seq<string>>
  {
    match rest
    case None => None
    case Some(tail) => Some(ids + tail)
  }

  lemma PrependAssociates(a: seq<string>, b: seq<string>, rest: Option<seq<string>>)
    ensures Prepend([], rest) == rest
    ensures Prepend(a, Prepend(b, rest)) == Prepend(a + b, rest)
  {
    if rest.Some? {
      assert [] + rest.value == rest.value;
      assert a + (b + rest.value) == (a + b) + rest.value;
    }
  }

  /** The ids the whole chain yields, or None when a request raised HttpError. */
  function CollectedIds(r: ListResponse): Option<seq<string>>
  {
    match r
    case ListError => None
    case LastPage(_) => Some(PageIds(r))
    case Page(_, _, next) => Prepend(PageIds(r), CollectedIds(next))
  }

  /** The requests sent after the one answered by `r`: one per page token. */
  function FollowUps(q: string, r: ListResponse): seq<ListRequest>
  {
    if r.Page? then [ListRequest(q, Some(r.nextPageToken))] + FollowUps(q, r.next) else []
  }

  /** The id list of each answer, in chain order. */
  function PageIdLists(r: ListResponse): seq<seq<string>>
  {
    seq(|Responses(r)|, k requires 0 <= k < |Responses(r)| => PageIds(Responses(r)[k]))
  }

  /** Flattens a list of id lists, keeping their order. */
  function Concat(lists: seq<seq<string>>): seq<string>
  {
    if lists == [] then [] else Concat(lists[..|lists| - 1]) + lists[|lists| - 1]
  }

  /** One page of the loop: its ids move to the collected prefix, its token to the sent requests. */
  lemma ListingStep(q: string, before: seq<string>, requests: seq<ListRequest>, r: ListResponse)
    requires r.Page?
    ensures Prepend(before, CollectedIds(r)) == Prepend(before + PageIds(r), CollectedIds(r.next))
    ensures requests + FollowUps(q, r) == (requests + [ListRequest(q, Some(r.nextPageToken))]) + FollowUps(q, r.next)
  {
    PrependAssociates(before, PageIds(r), CollectedIds(r.next));
  }

  /**
   * Collects the ids of every listed message, following page tokens until an
   * answer carries none. `ids` is None when a listing request raised
   * HttpError, which the source lets propagate; `requests` are the requests
   * sent, in order.
   */
  method GetMessageIds(query: string, listing: ListResponse)
    returns (ids: Option<seq<string>>, requests: seq<ListRequest>)
    ensures ids == CollectedIds(listing)
    ensures requests == [ListRequest(AttachmentQuery(query), None)] + FollowUps(AttachmentQuery(query), listing)
  {
    var q := query + HasAttachment;
    requests := [ListRequest(q, None)];
    var results := listing;
    if results.ListError? {
      return None, requests;
    }
    var messages := PageIds(results);
    ghost var before: seq<string> := [];
    PrependAssociates([], [], CollectedIds(listing));
    while results.Page?
      invariant !results.ListError?
      invariant messages == before + PageIds(results)
      invariant CollectedIds(listing) == Prepend(before, CollectedIds(results))
      invariant requests + FollowUps(q, results) == [ListRequest(q, None)] + FollowUps(q, listing)
      decreases results
    {
      ListingStep(q, before, requests, results);
      var pageToken := results.nextPageToken;
      requests := requests + [ListRequest(q, Some(pageToken))];
      before := messages;
      results := results.next;
      if results.ListError? {
        assert requests + FollowUps(q, results) == requests;
        return None, requests;
      }
      messages := messages + PageIds(results);
    }
    assert requests + FollowUps(q, results) == requests;
    ids := Some(messages);
  }

  lemma {:induction false} ConcatCons(first: seq<string>, rest: seq<seq<string>>)
    ensures Concat([first] + rest) == first + Concat(rest)
    decreases |rest|
  {
    if rest != [] {
      var n := |rest|;
      assert ([first] + rest)[..n] == [first] + rest[..n - 1];
      ConcatCons(first, rest[..n - 1]);
    } else {
      assert [first] + rest == [first];
      assert [first][..0] == [];
    }
  }

  /**
   * The collected ids are the concatenation, in page order, of each answer's
   * ids; the chain yields ids exactly when its last answer is not an error.
   */
  lemma {:induction false} CollectedIdsConcatenatePages(r: ListResponse)
    ensures CollectedIds(r).Some? <==> !Responses(r)[|Responses(r)| - 1].ListError?
    ensures CollectedIds(r).Some? ==>
      CollectedIds(r).value == Concat(PageIdLists(r))
  {
    var rs := Responses(r);
    var pages := PageIdLists(r);
    match r
    case ListError =>
    case LastPage(_) =>
      assert pages == [PageIds(r)];
      ConcatCons(PageIds(r), []);
    case Page(_, _, next) =>
      CollectedIdsConcatenatePages(next);
      var rest := Responses(next);
      var restPages := PageIdLists(next);
      assert rs == [r] + rest;
      assert pages == [PageIds(r)] + restPages;
      ConcatCons(PageIds(r), restPages);
      if CollectedIds(r).Some? {
        assert CollectedIds(r).value == PageIds(r) + CollectedIds(next).value;
      }
  }

  /**
   * Paging goes on exactly while the latest answer carries a page token:
   * every answer but the last is a `Page`, the last is not, and the request
   * after answer k sends answer k's token with the same query.
   */
  lemma {:induction false} RequestsFollowTokens(q: string, r: ListResponse)
    ensures |FollowUps(q, r)| == |Responses(r)| - 1
    ensures !Responses(r)[|Responses(r)| - 1].Page?
    ensures forall k :: 0 <= k < |Responses(r)| - 1 ==>
      Responses(r)[k].Page? &&
      FollowUps(q, r)[k] == ListRequest(q, Some(Responses(r)[k].nextPageToken))
  {
    if r.Page? {
      RequestsFollowTokens(q, r.next);
      assert Responses(r) == [r] + Responses(r.next);
      assert FollowUps(q, r) == [ListRequest(q, Some(r.nextPageToken))] + FollowUps(q, r.next);
    }
  }

  // ---------------------------------------------------------------------
  // Fetching one message
  // ---------------------------------------------------------------------

  datatype Header = Header(name: string, value: string)

  /** A part's body: its inline `data`, or a reference to fetch it by (either may be absent). */
  datatype Body = Body(data: Option<string>, attachmentId: Option<string>)

  datatype Part = Part(filename: string, body: Body)

  /** The message payload; a missing `headers` or `parts` key is an empty list. */
  datatype Payload = Payload(headers: seq<Header>, parts: seq<Part>)

  /** The exceptions the fetch can raise: only HttpError is caught. */
  datatype Exception = HttpError | KeyError

  datatype Outcome<+T> = Ok(value: T) | Raised(error: Exception)

  /** How a call of GetMessage ends. */
  datatype Completion =
    | Returned          // the message is returned
    | HttpErrorPrinted  // HttpError was caught and printed; nothing is returned
    | KeyErrorRaised    // a part had neither data nor attachment id; KeyError propagates

  function LowerChar(c: char): char
  {
    if 'A' <= c <= 'Z' then (c as int + 32) as char else c
  }

  function Lower(s: string): string
  {
    seq(|s|, i requires 0 <= i < |s| => LowerChar(s[i]))
  }

  predicate IsSubjectHeader(h: Header)
  {
    Lower(h.name) == "subject"
  }

  /** The value of the last header named "subject" in any case, or "" when there is none. */
  function SubjectOf(headers: seq<Header>): string
  {
    if headers == [] then ""
    else if IsSubjectHeader(headers[|headers| - 1]) then headers[|headers| - 1].value
    else SubjectOf(headers[..|headers| - 1])
  }

  /** Without a subject header the subject is empty. */
  lemma {:induction false} NoSubjectHeaderMeansEmpty(headers: seq<Header>)
    requires forall k :: 0 <= k < |headers| ==> !IsSubjectHeader(headers[k])
    ensures SubjectOf(headers) == ""
  {
    if headers != [] {
      NoSubjectHeaderMeansEmpty(headers[..|headers| - 1]);
    }
  }

  /** With subject headers, the subject is the value of the last of them. */
  lemma {:induction false} SubjectIsLastMatch(headers: seq<Header>, k: nat)
    requires k < |headers| && IsSubjectHeader(headers[k])
    requires forall j :: k < j < |headers| ==> !IsSubjectHeader(headers[j])
    ensures SubjectOf(headers) == headers[k].value
  {
    if k < |headers| - 1 {
      SubjectIsLastMatch(headers[..|headers| - 1], k);
    }
  }

  /** A character lowers to the lower-case letter `l` exactly when it is `l` or its upper-case form. */
  lemma LowerCharMatches(c: char, l: char)
    requires 'a' <= l <= 'z'
    ensures LowerChar(c) == l <==> c == l || c == (l as int - 32) as char
  {
  }

  /**
   * A header supplies the subject exactly when its name is "subject" with
   * each of its seven letters in either case.
   */
  lemma SubjectHeaderNames(h: Header)
    ensures IsSubjectHeader(h) <==>
      |h.name| == 7 && forall i :: 0 <= i < 7 ==> h.name[i] == "subject"[i] || h.name[i] == "SUBJECT"[i]
  {
    if |h.name| == 7 {
      forall i | 0 <= i < 7
        ensures Lower(h.name)[i] == "subject"[i] <==> h.name[i] == "subject"[i] || h.name[i] == "SUBJECT"[i]
      {
        LowerCharMatches(h.name[i], "subject"[i]);
      }
      assert Lower(h.name) == "subject" <==> forall i :: 0 <= i < 7 ==> Lower(h.name)[i] == "subject"[i];
    }
  }

  /**
   * The data of one attachment part: the inline `data` when present; otherwise
   * the attachment service is asked for `attachmentId`. `store` is that
   * service: an id it does not know answers with HttpError.
   */
  function BodyData(body: Body, store: map<string, string>): Outcome<string>
  {
    match body.data
    case Some(data) => Ok(data)
    case None =>
      match body.attachmentId
      case None => Raised(KeyError)
      case Some(id) => if id in store then Ok(store[id]) else Raised(HttpError)
  }

  /** The parts that become attachments: those with a non-empty filename, in part order. */
  function Selected(parts: seq<Part>): seq<Part>
  {
    if parts == [] then []
    else
      var last := parts[|parts| - 1];
      Selected(parts[..|parts| - 1]) + (if last.filename != "" then [last] else [])
  }

  /**
   * Turns the selected parts into attachments, one after another; the first
   * part whose data cannot be had decides the exception.
   */
  function Resolve(selected: seq<Part>, store: map<string, string>): Outcome<seq<Attachment>>
  {
    if selected == [] then Ok([])
    else
      match Resolve(selected[..|selected| - 1], store)
      case Raised(e) => Raised(e)
      case Ok(attachments) =>
        var last := selected[|selected| - 1];
        match BodyData(last.body, store)
        case Raised(e) => Raised(e)
        case Ok(data) => Ok(attachments + [Attachment(last.filename, data)])
  }

  function ResolveParts(parts: seq<Part>, store: map<string, string>): Outcome<seq<Attachment>>
  {
    Resolve(Selected(parts), store)
  }

  /** Selection keeps order: selecting from a concatenation concatenates the selections. */
  lemma {:induction false} SelectedAppend(a: seq<Part>, b: seq<Part>)
    ensures Selected(a + b) == Selected(a) + Selected(b)
    decreases |b|
  {
    if b == [] {
      assert a + b == a;
    } else {
      var n := |b|;
      assert (a + b)[..|a + b| - 1] == a + b[..n - 1];
      SelectedAppend(a, b[..n - 1]);
    }
  }

  /** A part is selected exactly when it is one of the parts and has a non-empty filename. */
  lemma {:induction false} SelectedMembers(parts: seq<Part>)
    ensures forall p :: p in Selected(parts) <==> p in parts && p.filename != ""
  {
    if parts != [] {
      var init := parts[..|parts| - 1];
      SelectedMembers(init);
      assert parts == init + [parts[|parts| - 1]];
    }
  }

  /** Once an exception is raised, the parts after it do not matter. */
  lemma {:induction false} RaisedPersists(a: seq<Part>, b: seq<Part>, store: map<string, string>, e: Exception)
    requires Resolve(a, store) == Raised(e)
    ensures Resolve(a + b, store) == Raised(e)
    decreases |b|
  {
    if b == [] {
      assert a + b == a;
    } else {
      var n := |b|;
      assert (a + b)[..|a + b| - 1] == a + b[..n - 1];
      RaisedPersists(a, b[..n - 1], store, e);
    }
  }

  /**
   * A successful resolution yields one attachment per selected part, in part
   * order, named by the part's filename and holding that part's data.
   */
  lemma {:induction false} ResolvedAttachments(selected: seq<Part>, store: map<string, string>, attachments: seq<Attachment>)
    requires Resolve(selected, store) == Ok(attachments)
    ensures |attachments| == |selected|
    ensures forall k :: 0 <= k < |selected| ==>
      attachments[k].filename == selected[k].filename &&
      BodyData(selected[k].body, store) == Ok(attachments[k].content)
  {
    if selected != [] {
      var n := |selected|;
      var prior := Resolve(selected[..n - 1], store);
      assert prior.Ok?;
      ResolvedAttachments(selected[..n - 1], store, prior.value);
      assert attachments == prior.value + [Attachment(selected[n - 1].filename, BodyData(selected[n - 1].body, store).value)];
    }
  }

  /** Resolution succeeds exactly when every selected part's data can be had. */
  lemma {:induction false} ResolveSucceedsIff(selected: seq<Part>, store: map<string, string>)
    ensures Resolve(selected, store).Ok? <==> forall k :: 0 <= k < |selected| ==> BodyData(selected[k].body, store).Ok?
  {
    if selected != [] {
      var n := |selected|;
      ResolveSucceedsIff(selected[..n - 1], store);
      assert forall k :: 0 <= k < n - 1 ==> selected[..n - 1][k] == selected[k];
    }
  }

  /** A failed resolution fails with the exception of the first selected part that fails. */
  lemma {:induction false} FirstFailureDecides(selected: seq<Part>, store: map<string, string>, e: Exception)
    requires Resolve(selected, store) == Raised(e)
    ensures exists k :: 0 <= k < |selected| && BodyData(selected[k].body, store) == Raised(e) &&
                        forall j :: 0 <= j < k ==> BodyData(selected[j].body, store).Ok?
  {
    var n := |selected|;
    var init := selected[..n - 1];
    assert forall k :: 0 <= k < n - 1 ==> init[k] == selected[k];
    if Resolve(init, store).Raised? {
      FirstFailureDecides(init, store, e);
      var k :| 0 <= k < n - 1 && BodyData(init[k].body, store) == Raised(e) &&
        forall j :: 0 <= j < k ==> BodyData(init[j].body, store).Ok?;
      assert BodyData(selected[k].body, store) == Raised(e);
    } else {
      ResolveSucceedsIff(init, store);
      assert BodyData(selected[n - 1].body, store) == Raised(e);
    }
  }

  /** The attachment ids that are looked up: those of selected parts without inline data. */
  function LookedUpIds(selected: seq<Part>): set<string>
  {
    set k | 0 <= k < |selected| && selected[k].body.data.None? && selected[k].body.attachmentId.Some? ::
      selected[k].body.attachmentId.value
  }

  /**
   * The attachment service is consulted only for parts without inline data:
   * two services that agree on those ids give the same result.
   */
  lemma {:induction false} OnlyMissingDataIsLookedUp(selected: seq<Part>, s1: map<string, string>, s2: map<string, string>)
    requires forall id :: id in LookedUpIds(selected) ==> (id in s1 <==> id in s2) && (id in s1 ==> s1[id] == s2[id])
    ensures Resolve(selected, s1) == Resolve(selected, s2)
  {
    if selected != [] {
      var n := |selected|;
      var init := selected[..n - 1];
      assert LookedUpIds(init) <= LookedUpIds(selected) by {
        forall id | id in LookedUpIds(init) ensures id in LookedUpIds(selected) {
          var k :| 0 <= k < |init| && init[k].body.data.None? && init[k].body.attachmentId.Some? &&
            init[k].body.attachmentId.value == id;
          assert selected[k] == init[k];
        }
      }
      OnlyMissingDataIsLookedUp(init, s1, s2);
      var last := selected[n - 1];
      if last.body.data.None? && last.body.attachmentId.Some? {
        assert last.body.attachmentId.value in LookedUpIds(selected);
      }
    }
  }

  /** When every selected part has inline data, no attachment is fetched at all. */
  lemma InlineDataNeedsNoFetch(selected: seq<Part>, store: map<string, string>)
    requires forall k :: 0 <= k < |selected| ==> selected[k].body.data.Some?
    ensures Resolve(selected, store) == Resolve(selected, map[])
  {
    assert LookedUpIds(selected) == {};
    OnlyMissingDataIsLookedUp(selected, store, map[]);
  }

  lemma SubjectStep(headers: seq<Header>, i: nat)
    requires i < |headers|
    ensures SubjectOf(headers[..i + 1]) ==
      if IsSubjectHeader(headers[i]) then headers[i].value else SubjectOf(headers[..i])
  {
    assert headers[..i + 1][..i] == headers[..i];
  }

  /** Adding part i to the parts seen so far adds it to the selection iff it has a filename. */
  lemma SelectedStep(parts: seq<Part>, i: nat)
    requires i < |parts|
    ensures parts[i].filename != "" ==> Selected(parts[..i + 1]) == Selected(parts[..i]) + [parts[i]]
    ensures parts[i].filename == "" ==> Selected(parts[..i + 1]) == Selected(parts[..i])
  {
    assert parts[..i + 1][..i] == parts[..i];
    assert Selected(parts[..i]) + [] == Selected(parts[..i]);
  }

  lemma ResolveSnoc(selected: seq<Part>, p: Part, store: map<string, string>)
    ensures Resolve(selected + [p], store) ==
      match Resolve(selected, store)
      case Raised(e) => Raised(e)
      case Ok(attachments) =>
        match BodyData(p.body, store)
        case Raised(e) => Raised(e)
        case Ok(data) => Ok(attachments + [Attachment(p.filename, data)])
  {
    assert (selected + [p])[..|selected|] == selected;
  }

  /** An exception raised by the parts seen so far is the result for all parts. */
  lemma RaisedAtPrefix(parts: seq<Part>, i: nat, store: map<string, string>, e: Exception)
    requires i <= |parts| && ResolveParts(parts[..i], store) == Raised(e)
    ensures ResolveParts(parts, store) == Raised(e)
  {
    assert parts == parts[..i] + parts[i..];
    SelectedAppend(parts[..i], parts[i..]);
    RaisedPersists(Selected(parts[..i]), Selected(parts[i..]), store, e);
  }

  /**
   * Fetches one message. `response` is the answer to the message request
   * (None: it raised HttpError) and `store` answers attachment requests.
   * The message carries the requested id, the subject of the last subject
   * header and one attachment per part with a filename, in part order.
   * HttpError anywhere makes the call return nothing; a part without data or
   * attachment id raises KeyError.
   */
  method GetMessage(messageId: string, response: Option<Payload>, store: map<string, string>)
    returns (completion: Completion, message: Message?)
    ensures completion == Returned <==> message != null
    ensures response.None? ==> completion == HttpErrorPrinted
    ensures response.Some? ==>
      match ResolveParts(response.value.parts, store)
      case Ok(attachments) =>
        completion == Returned && message != null &&
        message.id == messageId &&
        message.subject == SubjectOf(response.value.headers) &&
        message.attachments == attachments
      case Raised(HttpError) => completion == HttpErrorPrinted
      case Raised(KeyError) => completion == KeyErrorRaised
  {
    if response.None? {
      return HttpErrorPrinted, null;
    }
    var payload := response.value;
    var headers, parts := payload.headers, payload.parts;

    var subject := "";
    for i := 0 to |headers|
      invariant subject == SubjectOf(headers[..i])
    {
      SubjectStep(headers, i);
      if IsSubjectHeader(headers[i]) {
        subject := headers[i].value;
      }
    }
    assert headers[..|headers|] == headers;

    var m := new Message(messageId, subject);
    for i := 0 to |parts|
      invariant m.id == messageId && m.subject == subject
      invariant ResolveParts(parts[..i], store) == Ok(m.attachments)
    {
      var part := parts[i];
      SelectedStep(parts, i);
      if part.filename != "" {
        ResolveSnoc(Selected(parts[..i]), part, store);
        var data: string;
        match part.body.data {
          case Some(d) =>
            data := d;
          case None =>
            match part.body.attachmentId {
              case None =>
                RaisedAtPrefix(parts, i + 1, store, KeyError);
                return KeyErrorRaised, null;
              case Some(id) =>
                if id !in store {
                  RaisedAtPrefix(parts, i + 1, store, HttpError);
                  return HttpErrorPrinted, null;
                }
                data := store[id];
            }
        }
        m.AddAttachment(Attachment(part.filename, data));
      }
    }
    assert parts[..|parts|] == parts;
    return Returned, m;
  }
}
