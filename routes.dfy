/**
 * The JSON endpoints of the web application (routes.py): how a request body is
 * read, how a comma-separated tag string becomes a tag list, and which status
 * code and reply each outcome of the store yields. Flask itself (routing,
 * `request`, `jsonify`) is not modelled: a request arrives as a `Body` value and
 * a reply leaves as a `Reply` value.
 */
module Routes {
  import opened Wrappers
  import opened Strings
  import opened Seqs
  import opened Dates
  import opened Records
  import DataManagement

  // ---------------------------------------------------------------- request bodies

  /** The value of a request's `tags` key: a comma-separated string or a list of strings. */
  datatype TagsValue = TagText(text: string) | TagList(list: seq<string>)

  /**
   * A JSON object body. The five fields are the keys the store reads (None when
   * the key is absent); `otherKeys` counts every other key, including a read key
   * holding null, so the object is empty exactly when all five are None and
   * `otherKeys` is 0.
   */
  datatype Body = Body(name: Option<string>, date: Option<string>, location: Option<string>,
                       description: Option<string>, tags: Option<TagsValue>, otherKeys: nat)

  /** `not data`: no JSON body at all, or an empty object. */
  predicate NoData(body: Option<Body>) {
    body.None? || body.value == Body(None, None, None, None, None, 0)
  }

  // ---------------------------------------------------------------- tag strings

  predicate NonEmpty(s: string) {
    s != ""
  }

  /** A tag as the parser produces it: non-empty, no comma, no surrounding whitespace. */
  predicate Clean(t: string) {
    t != "" && ',' !in t && !IsSpace(t[0]) && !IsSpace(t[|t| - 1])
  }

  /** A string `tags` value: split on ',', strip each piece, drop the pieces left empty. */
  function ParseTagString(s: string): (tags: seq<string>)
    ensures |tags| <= |Split(s, ',')|
    ensures forall i :: 0 <= i < |tags| ==> tags[i] != ""
  {
    Filter(Map(Split(s, ','), Strip), NonEmpty)
  }

  /** Every parsed tag is clean. */
  lemma ParsedTagsAreClean(s: string)
    ensures forall i :: 0 <= i < |ParseTagString(s)| ==> Clean(ParseTagString(s)[i])
  {
    var tags := ParseTagString(s);
    forall i | 0 <= i < |tags| ensures Clean(tags[i]) {
      ParsedTagIsClean(s, tags[i]);
    }
  }

  lemma ParsedTagIsClean(s: string, t: string)
    requires t in Filter(Map(Split(s, ','), Strip), NonEmpty)
    ensures Clean(t)
  {
    var pieces := Split(s, ',');
    var stripped := Map(pieces, Strip);
    FilterMembership(stripped, NonEmpty, t);
    var j :| 0 <= j < |stripped| && stripped[j] == t;
    StrippedPieceIsClean(pieces[j]);
  }

  lemma StrippedPieceIsClean(piece: string)
    requires ',' !in piece && Strip(piece) != ""
    ensures Clean(Strip(piece))
  {
  }

  /** Clean tags written with commas between them are read back unchanged. */
  lemma ParseJoinedTags(tags: seq<string>)
    requires forall i :: 0 <= i < |tags| ==> Clean(tags[i])
    ensures ParseTagString(Join(",", tags)) == tags
  {
    if tags == [] {
      ParseEmpty();
    } else {
      SplitJoin(tags, ',');
      StripClean(tags);
      FilterAll(tags, NonEmpty);
    }
  }

  lemma ParseEmpty()
    ensures ParseTagString("") == []
  {
    assert Split("", ',') == [""];
    assert Map([""], Strip) == [Strip("")];
  }

  /** Stripping clean tags changes none of them. */
  lemma StripClean(tags: seq<string>)
    requires forall i :: 0 <= i < |tags| ==> Clean(tags[i])
    ensures Map(tags, Strip) == tags
  {
    var stripped := Map(tags, Strip);
    forall i | 0 <= i < |tags| ensures stripped[i] == tags[i] {
      StripCleanTag(tags[i]);
    }
  }

  lemma StripCleanTag(t: string)
    requires Clean(t)
    ensures Strip(t) == t
  {
    StripIdentity(t);
  }

  /** Parsing the parser's own output, written back with commas, changes nothing. */
  lemma ParseTagStringIdempotent(s: string)
    ensures ParseTagString(Join(",", ParseTagString(s))) == ParseTagString(s)
  {
    ParsedTagsAreClean(s);
    ParseJoinedTags(ParseTagString(s));
  }

  /** The request's tags as the store receives them: a string is parsed, a list is passed on. */
  function RequestTags(t: Option<TagsValue>): (r: Option<seq<string>>)
    ensures t.None? <==> r.None?
    ensures t.Some? && t.value.TagList? ==> r == Some(t.value.list)
    ensures t.Some? && t.value.TagText? ==> forall i :: 0 <= i < |r.value| ==> Clean(r.value[i])
  {
    match t
    case None => None
    case Some(TagText(s)) => ParsedTagsAreClean(s); Some(ParseTagString(s))
    case Some(TagList(l)) => Some(l)
  }

  /** The dictionary handed to the store once a string `tags` value has been parsed. */
  function RequestData(b: Body): EventData {
    EventData(b.name, b.date, b.location, b.description, RequestTags(b.tags))
  }

  // ---------------------------------------------------------------- replies

  datatype Payload =
    | Failure(error: string)
    | Invalid(errors: seq<string>)
    | Success(event: Option<Event>, message: Option<string>)
    | Listing(events: seq<Event>, total: int)

  datatype Reply = Reply(status: int, payload: Payload)

  const NoDataProvided := "No data provided"
  const EventNotFound := "Event not found"
  const CreatedMessage := "Event created successfully"
  const UpdatedMessage := "Event updated successfully"
  const DeletedMessage := "Event deleted successfully"

  /** The reply to a body that is missing or empty, given before the store is called. */
  const NoDataReply := Reply(400, Failure(NoDataProvided))

  /** The status and reply `create_event` chooses for the store's `(event, errors)`. */
  function CreateResultReply(event: Option<Event>, errors: seq<string>): (r: Reply)
    ensures r.status == 400 <==> errors != []
    ensures r.status == 400 ==> r.payload == Invalid(errors)
    ensures r.status != 400 ==> r.status == 201 && r.payload == Success(event, Some(CreatedMessage))
  {
    if errors != [] then Reply(400, Invalid(errors))
    else Reply(201, Success(event, Some(CreatedMessage)))
  }

  /**
   * The status and reply `update_event` chooses for the store's `(event, errors)`:
   * the errors are looked at first, a missing event only after them.
   */
  function UpdateResultReply(event: Option<Event>, errors: seq<string>): (r: Reply)
    ensures r.status == 400 <==> errors != []
    ensures r.status == 400 ==> r.payload == Invalid(errors)
    ensures r.status == 404 <==> errors == [] && event.None?
    ensures r.status == 200 <==> errors == [] && event.Some?
    ensures r.status == 200 ==> r.payload == Success(event, Some(UpdatedMessage))
  {
    if errors != [] then Reply(400, Invalid(errors))
    else if event.None? then Reply(404, Failure(EventNotFound))
    else Reply(200, Success(event, Some(UpdatedMessage)))
  }

  /** The status and reply `delete_event` chooses for the store's answer. */
  function DeleteResultReply(success: bool): (r: Reply)
    ensures r.status == 404 <==> !success
    ensures r.status == 200 <==> success
  {
    if !success then Reply(404, Failure(EventNotFound))
    else Reply(200, Success(None, Some(DeletedMessage)))
  }

  /** The reply of `POST /api/events`. */
  function CreateReply(events: map<string, Event>, body: Option<Body>, newId: string, now: int, p: DateParsers)
    : Reply
  {
    if NoData(body) then NoDataReply
    else
      var data := RequestData(body.value);
      var errors := DataManagement.CreateErrors(events, data, p);
      CreateResultReply(if errors == [] then Some(DataManagement.NewEvent(newId, data, now)) else None, errors)
  }

  /** The store after `POST /api/events`: an empty request never reaches it. */
  function CreateStore(events: map<string, Event>, body: Option<Body>, newId: string, now: int, p: DateParsers)
    : map<string, Event>
  {
    if NoData(body) then events else DataManagement.Created(events, RequestData(body.value), newId, now, p)
  }

  /** The reply of `PUT /api/events/<id>`. */
  function UpdateReply(events: map<string, Event>, id: string, body: Option<Body>, p: DateParsers): Reply {
    if NoData(body) then NoDataReply
    else
      var data := RequestData(body.value);
      var errors := DataManagement.UpdateErrors(events, id, data, p);
      UpdateResultReply(if id in events && errors == [] then Some(DataManagement.Updated(events[id], data)) else None,
                        errors)
  }

  /** The store after `PUT /api/events/<id>`. */
  function UpdateStore(events: map<string, Event>, id: string, body: Option<Body>): map<string, Event> {
    if NoData(body) then events else DataManagement.Applied(events, id, RequestData(body.value))
  }

  /** The reply of `DELETE /api/events/<id>`. */
  function DeleteReply(events: map<string, Event>, id: string): Reply {
    DeleteResultReply(id in events)
  }

  /** The reply of `GET /api/events/<id>`. */
  function GetEventReply(events: map<string, Event>, id: string): (r: Reply)
    ensures r.status == 404 <==> DataManagement.Lookup(events, id).None?
    ensures r.status == 200 ==> r.payload == Success(DataManagement.Lookup(events, id), None)
    ensures r.status in {200, 404}
  {
    match DataManagement.Lookup(events, id)
    case None => Reply(404, Failure(EventNotFound))
    case Some(e) => Reply(200, Success(Some(e), None))
  }

  // ---------------------------------------------------------------- handlers

  /** `create_event()`. */
  method CreateEvent(dm: DataManagement.DataManager, body: Option<Body>, newId: string, now: int, p: DateParsers)
    returns (reply: Reply)
    requires dm.Valid()
    modifies dm
    ensures dm.Valid()
    ensures reply == CreateReply(old(dm.events), body, newId, now, p)
    ensures dm.events == CreateStore(old(dm.events), body, newId, now, p)
    ensures dm.ids == if !NoData(body) && DataManagement.CreateErrors(old(dm.events), RequestData(body.value), p) == []
                         && newId !in old(dm.events)
                      then old(dm.ids) + [newId] else old(dm.ids)
  {
    if NoData(body) {
      return NoDataReply;
    }
    var event, errors := dm.CreateEvent(RequestData(body.value), newId, now, p);
    reply := CreateResultReply(event, errors);
  }

  /** `update_event(event_id)`. */
  method UpdateEvent(dm: DataManagement.DataManager, id: string, body: Option<Body>, p: DateParsers)
    returns (reply: Reply)
    requires dm.Valid()
    modifies dm
    ensures dm.Valid()
    ensures reply == UpdateReply(old(dm.events), id, body, p)
    ensures dm.events == UpdateStore(old(dm.events), id, body)
    ensures dm.ids == old(dm.ids)
  {
    if NoData(body) {
      return NoDataReply;
    }
    var event, errors := dm.UpdateEvent(id, RequestData(body.value), p);
    reply := UpdateResultReply(event, errors);
  }

  /** `delete_event(event_id)`. */
  method DeleteEvent(dm: DataManagement.DataManager, id: string) returns (reply: Reply)
    requires dm.Valid()
    modifies dm
    ensures dm.Valid()
    ensures reply == DeleteReply(old(dm.events), id)
    ensures dm.events == old(dm.events) - {id}
    ensures dm.ids == Filter(old(dm.ids), (x: string) => x != id)
  {
    var success := dm.DeleteEvent(id);
    reply := DeleteResultReply(success);
  }

  /**
   * `get_events()`: the query arguments default to no search, sorting by date
   * ascending and no tag filter; the reply lists the events and their number.
   */
  method GetEvents(dm: DataManagement.DataManager, search: Option<string>, sortBy: Option<string>,
                   sortOrder: Option<string>, tag: Option<string>, p: DateParsers)
    returns (reply: Reply)
    requires dm.Valid()
    ensures reply.status == 200 && reply.payload.Listing?
    ensures reply.payload.total == |reply.payload.events|
    ensures reply.payload.events == DataManagement.Query(dm.Values(), Some(search.GetOr("")), sortBy.GetOr("date"),
                                                         sortOrder.GetOr("asc"), Some(tag.GetOr("")), p)
  {
    var events := dm.GetAllEvents(Some(search.GetOr("")), sortBy.GetOr("date"), sortOrder.GetOr("asc"),
                                  Some(tag.GetOr("")), p);
    return Reply(200, Listing(events, |events|));
  }

  // ---------------------------------------------------------------- properties of the replies

  /** A missing or empty body is answered with 400 and never reaches the store. */
  lemma NoDataRejected(events: map<string, Event>, body: Option<Body>, id: string, now: int, p: DateParsers)
    requires NoData(body)
    ensures CreateReply(events, body, id, now, p).status == 400 && CreateStore(events, body, id, now, p) == events
    ensures UpdateReply(events, id, body, p).status == 400 && UpdateStore(events, id, body) == events
  {
  }

  /** Create answers 400 exactly when the body is empty or the store reports errors, and 201 otherwise. */
  lemma CreateStatus(events: map<string, Event>, body: Option<Body>, newId: string, now: int, p: DateParsers)
    ensures var r := CreateReply(events, body, newId, now, p);
            r.status in {201, 400} &&
            (r.status == 400 <==>
               NoData(body) || DataManagement.CreateErrors(events, RequestData(body.value), p) != [])
  {
  }

  /** A 201 reply carries the event now stored under the new id; a 400 reply leaves the store as it was. */
  lemma CreateReplyAgreesWithStore(events: map<string, Event>, body: Option<Body>, newId: string, now: int,
                                   p: DateParsers)
    ensures var r := CreateReply(events, body, newId, now, p);
            var after := CreateStore(events, body, newId, now, p);
            (r.status == 201 ==> r.payload.Success? && r.payload.event == DataManagement.Lookup(after, newId)) &&
            (r.status == 400 ==> after == events)
  {
  }

  /**
   * Update never answers 404: an unknown id is reported by the store as the
   * error "Event not found", which the handler returns with status 400.
   */
  lemma UpdateNeverNotFound(events: map<string, Event>, id: string, body: Option<Body>, p: DateParsers)
    ensures UpdateReply(events, id, body, p).status in {200, 400}
    ensures id !in events && !NoData(body) ==>
              UpdateReply(events, id, body, p) == Reply(400, Invalid([DataManagement.NotFound]))
  {
    if !NoData(body) && id !in events {
      DataManagement.UpdateUnknown(events, id, RequestData(body.value), p);
    }
  }

  /** A 200 reply to an update carries the event now stored under that id. */
  lemma UpdateReplyAgreesWithStore(events: map<string, Event>, id: string, body: Option<Body>, p: DateParsers)
    ensures var r := UpdateReply(events, id, body, p);
            r.status == 200 ==>
              r.payload.Success? && r.payload.event == DataManagement.Lookup(UpdateStore(events, id, body), id)
  {
  }

  /**
   * A rejected update still changes the store unless the body was empty; only
   * an unknown id or an empty body leaves it as it was.
   */
  lemma RejectedUpdateStore(events: map<string, Event>, id: string, body: Option<Body>, p: DateParsers)
    ensures var after := UpdateStore(events, id, body);
            (NoData(body) || id !in events ==> after == events) &&
            (!NoData(body) && id in events ==>
               DataManagement.Lookup(after, id) == Some(DataManagement.Updated(events[id], RequestData(body.value))))
  {
  }

  /** Delete answers 404 exactly when no event has that id; afterwards none has it. */
  lemma DeleteStatus(events: map<string, Event>, id: string)
    ensures var r := DeleteReply(events, id);
            r.status in {200, 404} && (r.status == 404 <==> DataManagement.Lookup(events, id).None?) &&
            DataManagement.Lookup(events - {id}, id).None?
  {
  }
}
