/** The events routes: create, the listing, an event's detail, join, leave and delete. The
    `event_participants` table is a set of (event, user) pairs. */
module Events {
  import opened Common
  import opened Seqs
  import opened Paging
  import opened Sorting
  import opened Db

  type Participants = set<(EventId, UserId)>

  /** The participant rows of event `id`. */
  function RowsOf(ps: Participants, id: EventId): (r: set<(EventId, UserId)>)
    ensures forall k :: k in r <==> k in ps && k.0 == id
  {
    set k | k in ps && k.0 == id
  }

  /** The participant count the handlers read (`count: 'exact'`, `participants.length`). */
  function Count(ps: Participants, id: EventId): nat {
    |RowsOf(ps, id)|
  }

  /** Registering a new participant adds one to the event's count and to no other event's. */
  lemma CountAdd(ps: Participants, id: EventId, u: UserId, e: EventId)
    requires (id, u) !in ps
    ensures Count(ps + {(id, u)}, e) == Count(ps, e) + (if e == id then 1 else 0)
  {
    if e == id {
      assert RowsOf(ps + {(id, u)}, e) == RowsOf(ps, e) + {(id, u)};
    } else {
      assert RowsOf(ps + {(id, u)}, e) == RowsOf(ps, e);
    }
  }

  /** Removing a registration takes one from the event's count if it was there. */
  lemma CountRemove(ps: Participants, id: EventId, u: UserId)
    ensures Count(ps - {(id, u)}, id) == Count(ps, id) - (if (id, u) in ps then 1 else 0)
  {
    if (id, u) in ps {
      assert RowsOf(ps, id) == RowsOf(ps - {(id, u)}, id) + {(id, u)};
    } else {
      assert RowsOf(ps - {(id, u)}, id) == RowsOf(ps, id);
    }
  }

  // ---------------------------------------------------------------------------------------
  // POST /

  datatype EventReply = EventCreated(event: Event) | EventFailed(status: nat, error: string)

  /** `POST /`: only a member of the community may create an event (403). Missing (or zero,
      or empty) optional fields default: duration 60, at most 50 participants, offline, no
      link. The row gets id `newId` and the database's initial status 'upcoming'; an insert
      whose id is taken fails with 500. The organizer is registered as a participant. */
  method Create(db: Database, me: UserId, title: string, description: string, communityId: CommunityId,
                location: string, eventDate: int, duration: Option<int>, maxParticipants: Option<int>,
                category: string, isOnline: Option<bool>, meetingLink: Option<string>, newId: EventId)
    returns (r: EventReply)
    modifies db`events, db`participants
    ensures (communityId, me) !in db.members ==>
              r == EventFailed(403, "You must be a member of the community to create events")
    ensures (communityId, me) in db.members && newId in old(db.events) ==> r == EventFailed(500, "Failed to create event")
    ensures r.EventFailed? ==> db.events == old(db.events) && db.participants == old(db.participants)
    ensures r.EventCreated? ==>
              && (communityId, me) in db.members && newId !in old(db.events)
              && r.event.id == newId && r.event.organizerId == me && r.event.communityId == communityId
              && r.event.title == title && r.event.description == description && r.event.location == location
              && r.event.eventDate == eventDate && r.event.category == category && r.event.status == "upcoming"
              && r.event.duration == (if duration.Some? && duration.value != 0 then duration.value else 60)
              && r.event.maxParticipants == (if maxParticipants.Some? && maxParticipants.value != 0 then maxParticipants.value else 50)
              && r.event.isOnline == (isOnline.Some? && isOnline.value)
              && r.event.meetingLink == OrNull(meetingLink)
              && db.events == old(db.events)[newId := r.event]
              && db.participants == old(db.participants) + {(newId, me)}
    ensures (communityId, me) in db.members && newId !in old(db.events) ==> r.EventCreated?
  {
    if Membership(db.members, communityId, me).None? {
      return EventFailed(403, "You must be a member of the community to create events");
    }
    if newId in db.events {
      return EventFailed(500, "Failed to create event");
    }
    var e := Event(newId, title, description, me, communityId, location, eventDate,
                   if duration.Some? && duration.value != 0 then duration.value else 60,
                   if maxParticipants.Some? && maxParticipants.value != 0 then maxParticipants.value else 50,
                   category, isOnline.Some? && isOnline.value, OrNull(meetingLink), "upcoming");
    db.events, db.participants := db.events[newId := e], db.participants + {(newId, me)};
    r := EventCreated(e);
  }

  // ---------------------------------------------------------------------------------------
  // GET /

  /** The rows the listing query keeps. `status` defaults to 'upcoming', which keeps the
      events dated `now` or later whose status is 'upcoming'; any other value filters nothing. */
  predicate Kept(e: Event, category: Option<string>, communityId: Option<string>, status: Option<string>, now: int) {
    && (Present(category) ==> e.category == category.value)
    && (Present(communityId) ==> e.communityId == communityId.value)
    && ((status.None? || status.value == "upcoming") ==> e.eventDate >= now && e.status == "upcoming")
  }

  /** Earliest first: a descending sort on negated dates, stable among equal dates. */
  function ByDate(es: seq<Event>): (r: seq<Keyed<Event>>)
    ensures |r| == |es| && forall i :: 0 <= i < |es| ==> r[i] == Keyed(es[i], -es[i].eventDate, 0)
  {
    seq(|es|, i requires 0 <= i < |es| => Keyed(es[i], -es[i].eventDate, 0))
  }

  /** The rows the listing keeps, in table order. */
  function Selected(rows: seq<Event>, category: Option<string>, communityId: Option<string>, status: Option<string>, now: int): (r: seq<Event>)
    ensures forall e :: e in r <==> e in rows && Kept(e, category, communityId, status, now)
  {
    Filter(rows, (e: Event) => Kept(e, category, communityId, status, now))
  }

  /** `sel`, earliest first. */
  function ByEventDate(sel: seq<Event>): (r: seq<Event>)
    ensures |r| == |sel|
  {
    Items(SortDesc(ByDate(sel)))
  }

  function Earliest(rows: seq<Event>, category: Option<string>, communityId: Option<string>, status: Option<string>, now: int): seq<Event> {
    ByEventDate(Selected(rows, category, communityId, status, now))
  }

  predicate DatedAs(k: Keyed<Event>, sel: seq<Event>) {
    k.item in sel && k.major == -k.item.eventDate
  }

  /** Ordering by date reorders `sel`, keeping every row as often as it occurs, and puts
      them earliest first. */
  lemma ByEventDateFacts(sel: seq<Event>)
    ensures forall i :: 0 <= i < |ByEventDate(sel)| ==> ByEventDate(sel)[i] in sel
    ensures forall i, j :: 0 <= i < j < |ByEventDate(sel)| ==> ByEventDate(sel)[i].eventDate <= ByEventDate(sel)[j].eventDate
    ensures multiset(ByEventDate(sel)) == multiset(sel)
  {
    var s := ByDate(sel);
    SortDescPermutes(s, sel);
    var r := SortDesc(s);
    var o := ByEventDate(sel);
    forall k | 0 <= k < |s| ensures DatedAs(s[k], sel) {
      assert s[k].item == sel[k];
    }
    SortDescKeeps(s, (k: Keyed<Event>) => DatedAs(k, sel));
    forall i | 0 <= i < |o| ensures o[i] in sel {
      assert o[i] == r[i].item && DatedAs(r[i], sel);
    }
    forall i, j | 0 <= i < j < |o| ensures o[i].eventDate <= o[j].eventDate {
      assert o[i] == r[i].item && DatedAs(r[i], sel);
      assert o[j] == r[j].item && DatedAs(r[j], sel);
      assert Ahead(r[i], r[j]);
    }
  }

  datatype EventList = EventList(events: seq<Event>, total: nat, page: nat, totalPages: nat)

  /** `GET /` over `rows`, the events table in storage order, at time `now`. */
  function List(rows: seq<Event>, category: Option<string>, communityId: Option<string>, status: Option<string>,
                now: int, page: nat, limit: nat): (r: EventList)
    requires page >= 1 && limit >= 1
    ensures |r.events| <= limit
    ensures r.total == |Selected(rows, category, communityId, status, now)|
    ensures r.page == page && r.totalPages == TotalPages(r.total, limit)
    ensures r.events == PageRows(Earliest(rows, category, communityId, status, now), page, limit)
  {
    var sel := Selected(rows, category, communityId, status, now);
    EventList(PageRows(ByEventDate(sel), page, limit), |sel|, page, TotalPages(|sel|, limit))
  }

  /** A run of consecutive rows of a date-ordered list is itself date-ordered. */
  lemma WindowOrdered(o: seq<Event>, es: seq<Event>, off: nat)
    requires es != [] ==> off + |es| <= |o|
    requires forall i :: 0 <= i < |es| ==> es[i] == o[off + i]
    requires forall a, b :: 0 <= a < b < |o| ==> o[a].eventDate <= o[b].eventDate
    ensures forall i, j :: 0 <= i < j < |es| ==> es[i].eventDate <= es[j].eventDate
  {
    forall i, j | 0 <= i < j < |es| ensures es[i].eventDate <= es[j].eventDate {
      assert es[i] == o[off + i] && es[j] == o[off + j];
    }
  }

  /** A page of `sel` ordered by date holds rows of `sel`, earliest first. */
  lemma PageFacts(sel: seq<Event>, page: nat, limit: nat)
    requires page >= 1 && limit >= 1
    ensures var es := PageRows(ByEventDate(sel), page, limit);
            && (forall i :: 0 <= i < |es| ==> es[i] in sel)
            && (forall i, j :: 0 <= i < j < |es| ==> es[i].eventDate <= es[j].eventDate)
  {
    var o := ByEventDate(sel);
    var es := PageRows(o, page, limit);
    var off := Offset(page, limit);
    ByEventDateFacts(sel);
    forall i | 0 <= i < |es| ensures es[i] in sel {
      assert es[i] == o[off + i];
    }
    WindowOrdered(o, es, off);
  }

  /** Every event of the table the filters keep is listed on some page. */
  lemma ListCovers(rows: seq<Event>, category: Option<string>, communityId: Option<string>, status: Option<string>,
                   now: int, limit: nat, e: Event)
    requires limit >= 1
    requires e in rows && Kept(e, category, communityId, status, now)
    ensures exists page: nat :: page >= 1 && e in List(rows, category, communityId, status, now, page, limit).events
  {
    var sel := Selected(rows, category, communityId, status, now);
    var o := ByEventDate(sel);
    ByEventDateFacts(sel);
    assert e in multiset(o) by { assert e in sel; }
    SomePageHas(o, limit, e);
    var page: nat :| page >= 1 && e in PageRows(o, page, limit);
    assert List(rows, category, communityId, status, now, page, limit).events == PageRows(o, page, limit);
  }

  /** The default listing holds only events of the table dated now or later with status
      'upcoming', earliest first. */
  lemma UpcomingFacts(rows: seq<Event>, category: Option<string>, communityId: Option<string>, now: int, page: nat, limit: nat)
    requires page >= 1 && limit >= 1
    ensures var es := List(rows, category, communityId, None, now, page, limit).events;
            && (forall i :: 0 <= i < |es| ==> es[i] in rows && es[i].eventDate >= now && es[i].status == "upcoming")
            && (forall i, j :: 0 <= i < j < |es| ==> es[i].eventDate <= es[j].eventDate)
  {
    var sel := Selected(rows, category, communityId, None, now);
    PageFacts(sel, page, limit);
    var es := List(rows, category, communityId, None, now, page, limit).events;
    assert es == PageRows(ByEventDate(sel), page, limit);
    forall i | 0 <= i < |es| ensures es[i] in rows && es[i].eventDate >= now && es[i].status == "upcoming" {
      assert es[i] in sel;
    }
  }

  // ---------------------------------------------------------------------------------------
  // GET /:id

  datatype Detail =
    | EventDetail(event: Event, participantCount: nat, isParticipant: bool, isOrganizer: bool)
    | DetailNotFound(status: nat, error: string)

  /** `GET /:id`: 404 for an unknown event; otherwise the event with its participant count and
      the caller's flags. */
  function GetDetail(events: map<EventId, Event>, ps: Participants, me: UserId, id: EventId): (r: Detail)
    ensures r.DetailNotFound? <==> id !in events
    ensures r.DetailNotFound? ==> r == DetailNotFound(404, "Event not found")
    ensures r.EventDetail? ==>
              && r.event == events[id]
              && (r.isParticipant <==> exists k :: k in ps && k.0 == id && k.1 == me)
              && r.participantCount == |set k | k in ps && k.0 == id|
              && (r.isOrganizer <==> events[id].organizerId == me)
  {
    if id !in events then DetailNotFound(404, "Event not found")
    else
      assert (exists k :: k in ps && k.0 == id && k.1 == me) ==> (id, me) in ps;
      EventDetail(events[id], Count(ps, id), (id, me) in ps, events[id].organizerId == me)
  }

  // ---------------------------------------------------------------------------------------
  // POST /:id/join, POST /:id/leave, DELETE /:id

  /** `POST /:id/join`. The checks run in order: unknown event (404), already registered
      (400), full (400); only then is the caller registered. */
  method Join(db: Database, me: UserId, id: EventId) returns (r: Reply)
    modifies db`participants
    ensures id !in db.events ==> r == Fail(404, "Event not found")
    ensures id in db.events && (id, me) in old(db.participants) ==> r == Fail(400, "Already registered for this event")
    ensures id in db.events && (id, me) !in old(db.participants) && Count(old(db.participants), id) >= db.events[id].maxParticipants ==>
              r == Fail(400, "Event is full")
    ensures r.Fail? ==> db.participants == old(db.participants)
    ensures r.Ok? <==> id in db.events && (id, me) !in old(db.participants) && Count(old(db.participants), id) < db.events[id].maxParticipants
    ensures r.Ok? ==>
              && r == Ok("Registered for event successfully")
              && db.participants == old(db.participants) + {(id, me)}
              && Count(db.participants, id) == Count(old(db.participants), id) + 1 <= db.events[id].maxParticipants
  {
    if id !in db.events {
      return Fail(404, "Event not found");
    }
    if (id, me) in db.participants {
      return Fail(400, "Already registered for this event");
    }
    if Count(db.participants, id) >= db.events[id].maxParticipants {
      return Fail(400, "Event is full");
    }
    CountAdd(db.participants, id, me, id);
    db.participants := db.participants + {(id, me)};
    r := Ok("Registered for event successfully");
  }

  /** `POST /:id/leave`: removes the caller's registration, and succeeds when there was none. */
  method Leave(db: Database, me: UserId, id: EventId) returns (r: Reply)
    modifies db`participants
    ensures r == Ok("Left event successfully")
    ensures db.participants == old(db.participants) - {(id, me)}
    ensures Count(db.participants, id) == Count(old(db.participants), id) - (if (id, me) in old(db.participants) then 1 else 0)
  {
    CountRemove(db.participants, id, me);
    db.participants := db.participants - {(id, me)};
    r := Ok("Left event successfully");
  }

  /** `DELETE /:id`: only the organizer may delete; anyone else, and anyone naming an unknown
      event, gets 403. */
  method Delete(db: Database, me: UserId, id: EventId) returns (r: Reply)
    modifies db`events
    ensures id in old(db.events) && old(db.events)[id].organizerId == me ==>
              r == Ok("Event deleted successfully") && db.events == old(db.events) - {id}
    ensures !(id in old(db.events) && old(db.events)[id].organizerId == me) ==>
              r == Fail(403, "Only the organizer can delete the event") && db.events == old(db.events)
  {
    if !(id in db.events && db.events[id].organizerId == me) {
      return Fail(403, "Only the organizer can delete the event");
    }
    db.events := db.events - {id};
    r := Ok("Event deleted successfully");
  }
}
