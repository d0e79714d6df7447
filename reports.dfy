/// The report routes. A report loaded from the store is a document object
/// whose vote lists, counters and comments the like, dislike and comment
/// handlers change in place before saving it back; create, status,
/// feedback and delete build, replace or remove a whole record. The store
/// is the sequence of saved reports, and each handler runs atomically.
module Reports {
  import opened Js
  import opened ReportSchema
  import opened Votes
  import opened AuthMiddleware

  // ---------------------------------------------------------------------
  // Votes on one report
  // ---------------------------------------------------------------------

  function Likes(r: Report): Tally
  {
    Tally(r.likedBy, r.likesCount)
  }

  function Dislikes(r: Report): Tally
  {
    Tally(r.dislikedBy, r.dislikesCount)
  }

  /** The report after `u` toggles a like. */
  function Liked(r: Report, u: string): (r': Report)
    ensures SameApartFromVotes(r, r') && (Valid(r') <==> Valid(r))
    ensures CountersNonNegative(r) ==> CountersNonNegative(r')
  {
    var (l, d) := Cast(Likes(r), Dislikes(r), u);
    r.(likedBy := l.voters, likesCount := l.count, dislikedBy := d.voters, dislikesCount := d.count)
  }

  /** The report after `u` toggles a dislike. */
  function Disliked(r: Report, u: string): (r': Report)
    ensures SameApartFromVotes(r, r') && (Valid(r') <==> Valid(r))
    ensures CountersNonNegative(r) ==> CountersNonNegative(r')
  {
    var (d, l) := Cast(Dislikes(r), Likes(r), u);
    r.(likedBy := l.voters, likesCount := l.count, dislikedBy := d.voters, dislikesCount := d.count)
  }

  /** Exclusive voting, both counters equal to their lists' lengths and
      non-negative: a like keeps all of it. */
  lemma LikeKeepsTally(r: Report, u: string)
    requires WellTallied(r)
    ensures WellTallied(Liked(r, u))
  {
    var r' := Liked(r, u);
    CastKeepsCountersMatching(Likes(r), Dislikes(r), u);
    forall v
      ensures multiset(r'.likedBy)[v] + multiset(r'.dislikedBy)[v] <= 1
    {
      if v == u {
        CastKeepsExclusive(Likes(r), Dislikes(r), u);
      } else {
        CastKeepsOtherVoters(Likes(r), Dislikes(r), u, v);
      }
    }
  }

  /** A dislike keeps it too. */
  lemma DislikeKeepsTally(r: Report, u: string)
    requires WellTallied(r)
    ensures WellTallied(Disliked(r, u))
  {
    var r' := Disliked(r, u);
    CastKeepsCountersMatching(Dislikes(r), Likes(r), u);
    forall v
      ensures multiset(r'.likedBy)[v] + multiset(r'.dislikedBy)[v] <= 1
    {
      if v == u {
        CastKeepsExclusive(Dislikes(r), Likes(r), u);
      } else {
        CastKeepsOtherVoters(Dislikes(r), Likes(r), u, v);
      }
    }
  }

  /** For a user listed at most once overall, a like leaves them listed at
      most once, in `likedBy` exactly when they were not there before, and
      never in `dislikedBy`. */
  lemma LikeFlipsMembership(r: Report, u: string)
    requires multiset(r.likedBy)[u] + multiset(r.dislikedBy)[u] <= 1
    ensures var r' := Liked(r, u);
            && multiset(r'.likedBy)[u] + multiset(r'.dislikedBy)[u] <= 1
            && (u in r'.likedBy <==> u !in r.likedBy)
            && u !in r'.dislikedBy
  {
    CastKeepsExclusive(Likes(r), Dislikes(r), u);
  }

  /** The mirror image for a dislike. */
  lemma DislikeFlipsMembership(r: Report, u: string)
    requires multiset(r.likedBy)[u] + multiset(r.dislikedBy)[u] <= 1
    ensures var r' := Disliked(r, u);
            && multiset(r'.likedBy)[u] + multiset(r'.dislikedBy)[u] <= 1
            && (u in r'.dislikedBy <==> u !in r.dislikedBy)
            && u !in r'.likedBy
  {
    CastKeepsExclusive(Dislikes(r), Likes(r), u);
  }

  /** Liking twice, by a user who had not voted, restores the report. */
  lemma LikeTwiceRestores(r: Report, u: string)
    requires u !in r.likedBy && u !in r.dislikedBy && r.likesCount >= 0
    ensures Liked(Liked(r, u), u) == r
  {
    CastTwiceRestores(Likes(r), Dislikes(r), u);
  }

  /** Disliking twice, by a user who had not voted, restores the report. */
  lemma DislikeTwiceRestores(r: Report, u: string)
    requires u !in r.likedBy && u !in r.dislikedBy && r.dislikesCount >= 0
    ensures Disliked(Disliked(r, u), u) == r
  {
    CastTwiceRestores(Dislikes(r), Likes(r), u);
  }

  /** A user who liked a report and now dislikes it moves one vote across:
      one like fewer, one dislike more, listed only among the dislikers. */
  lemma DislikeAfterLike(r: Report, u: string)
    requires WellTallied(r) && u in r.likedBy
    ensures var r' := Disliked(r, u);
            && r'.likesCount == r.likesCount - 1
            && r'.dislikesCount == r.dislikesCount + 1
            && u in r'.dislikedBy && u !in r'.likedBy
  {
    assert multiset(r.likedBy)[u] + multiset(r.dislikedBy)[u] <= 1;
    assert u !in r.dislikedBy;
    DislikeFlipsMembership(r, u);
  }

  /** And the other way round. */
  lemma LikeAfterDislike(r: Report, u: string)
    requires WellTallied(r) && u in r.dislikedBy
    ensures var r' := Liked(r, u);
            && r'.dislikesCount == r.dislikesCount - 1
            && r'.likesCount == r.likesCount + 1
            && u in r'.likedBy && u !in r'.dislikedBy
  {
    assert multiset(r.likedBy)[u] + multiset(r.dislikedBy)[u] <= 1;
    assert u !in r.likedBy;
    LikeFlipsMembership(r, u);
  }

  // ---------------------------------------------------------------------
  // A report loaded from the store, changed in place
  // ---------------------------------------------------------------------

  class ReportDocument {
    const docId: string
    var reportId: int
    var category: Option<string>
    var priority: string
    var detail: Option<string>
    var status: string
    var owner: Option<string>
    var feedback: string
    var likesCount: int
    var dislikesCount: int
    var likedBy: seq<string>
    var dislikedBy: seq<string>
    var comments: seq<Comment>
    var startedAt: Option<Time>
    var completedAt: Option<Time>

    /** The record the document would be saved as. */
    function Snapshot(): Report
      reads this
    {
      Report(docId, reportId, category, priority, detail, status, owner, feedback,
             likesCount, dislikesCount, likedBy, dislikedBy, comments, startedAt, completedAt)
    }

    /** Load a stored report. */
    constructor Hydrate(r: Report)
      ensures Snapshot() == r
    {
      docId := r.docId;
      reportId := r.reportId;
      category := r.category;
      priority := r.priority;
      detail := r.detail;
      status := r.status;
      owner := r.owner;
      feedback := r.feedback;
      likesCount := r.likesCount;
      dislikesCount := r.dislikesCount;
      likedBy := r.likedBy;
      dislikedBy := r.dislikedBy;
      comments := r.comments;
      startedAt := r.startedAt;
      completedAt := r.completedAt;
    }

    /** The like handler's toggle on the loaded document: its vote lists and
        counters are updated in place and nothing else changes. */
    method ToggleLike(username: string)
      modifies this
      ensures Snapshot() == Liked(old(Snapshot()), username)
    {
      var own, opposite := Toggle(Likes(Snapshot()), Dislikes(Snapshot()), username);
      likedBy, likesCount := own.voters, own.count;
      dislikedBy, dislikesCount := opposite.voters, opposite.count;
    }

    /** The dislike handler's toggle on the loaded document. */
    method ToggleDislike(username: string)
      modifies this
      ensures Snapshot() == Disliked(old(Snapshot()), username)
    {
      var own, opposite := Toggle(Dislikes(Snapshot()), Likes(Snapshot()), username);
      dislikedBy, dislikesCount := own.voters, own.count;
      likedBy, likesCount := opposite.voters, opposite.count;
    }

    /** `comments.push(c)`. */
    method PushComment(c: Comment)
      modifies this
      ensures Snapshot() == old(Snapshot()).(comments := old(comments) + [c])
    {
      comments := comments + [c];
    }

    /** The validation `save` runs before writing: it succeeds exactly when
        the document satisfies the schema. */
    method Validate() returns (ok: bool)
      ensures ok <==> Valid(Snapshot())
    {
      ok := Truthy(category) && Truthy(detail) && Truthy(owner) && priority in Priorities;
      var i := 0;
      while i < |comments| && ok
        invariant 0 <= i <= |comments|
        invariant ok <==> Truthy(category) && Truthy(detail) && Truthy(owner) && priority in Priorities
                          && forall k :: 0 <= k < i ==> ValidComment(comments[k])
      {
        ok := ValidComment(comments[i]);
        i := i + 1;
      }
    }
  }

  // ---------------------------------------------------------------------
  // The store and the handlers
  // ---------------------------------------------------------------------

  /** What a handler answers. `Invalid` (a failed validation) and
      `DuplicateKey` (a unique index refusing a write) both reach the client
      as a 500 with the store's message. */
  datatype Reply =
    | Ok(report: Report)
    | Deleted(id: string)
    | NotFound
    | Invalid
    | DuplicateKey
    | CastFailure

  datatype Outcome = Outcome(reply: Reply, store: seq<Report>)

  /** What holds of every saved report: the schema is satisfied, the votes
      are well tallied, and `reportId` and the internal id are unique. */
  ghost predicate ValidStore(store: seq<Report>)
  {
    && (forall i :: 0 <= i < |store| ==> Valid(store[i]) && WellTallied(store[i]))
    && (forall i, j :: 0 <= i < j < |store| ==>
          store[i].reportId != store[j].reportId && store[i].docId != store[j].docId)
  }

  /** The first report satisfying `wanted`, as a query with that filter
      finds it. */
  function First(store: seq<Report>, wanted: Report -> bool): (found: Option<nat>)
    ensures found.None? <==> forall j :: 0 <= j < |store| ==> !wanted(store[j])
    ensures found.Some? ==> found.value < |store| && wanted(store[found.value])
                            && forall j :: 0 <= j < found.value ==> !wanted(store[j])
  {
    if store == [] then None
    else if wanted(store[0]) then Some(0)
    else
      match First(store[1..], wanted)
      case None => None
      case Some(k) =>
        assert forall j :: 1 <= j <= k ==> store[j] == store[1..][j - 1];
        Some(k + 1)
  }

  /** The lookup `{ reportId: id }` the id-based handlers share. */
  function FindReport(store: seq<Report>, id: int): (found: Option<nat>)
    ensures found.None? <==> forall j :: 0 <= j < |store| ==> store[j].reportId != id
    ensures found.Some? ==> found.value < |store| && store[found.value].reportId == id
                            && forall j :: 0 <= j < found.value ==> store[j].reportId != id
  {
    First(store, (r: Report) => r.reportId == id)
  }

  /** In a store with unique ids, the report found is the only one with it. */
  lemma {:induction false} FoundIsUnique(store: seq<Report>, id: int, j: nat)
    requires ValidStore(store) && j < |store| && store[j].reportId == id
    ensures FindReport(store, id) == Some(j)
  {
    assert FindReport(store, id).Some?;
  }

  /** The fields of a create request body; each may be absent. `status` is
      listed because a client may send it, and it is ignored. */
  datatype CreateBody = CreateBody(
    reportId: Option<int>,
    category: Option<string>,
    detail: Option<string>,
    priority: Option<string>,
    owner: Option<string>,
    status: Option<string>)

  /** `req.user?.username`. */
  function CallerName(caller: Option<Claims>): (name: Option<string>)
    ensures name.Some? <==> caller.Some?
    ensures caller.Some? ==> name.value == caller.value.username
  {
    if caller.Some? then Some(caller.value.username) else None
  }

  /** The document `create` builds: the id defaults to the clock, the
      priority to "medium", the owner to the caller; the status is always
      the intake status; the rest are the schema's defaults. */
  function Draft(body: CreateBody, caller: Option<Claims>, now: Time, docId: string): (d: Report)
    ensures d.reportId == (if body.reportId.Some? && body.reportId.value != 0 then body.reportId.value else now)
    ensures d.priority == (if Truthy(body.priority) then body.priority.value else DefaultPriority)
    ensures d.owner == (if Truthy(body.owner) then body.owner else CallerName(caller))
    ensures d.docId == docId && d.category == body.category && d.detail == body.detail
    ensures d.status == PendingIntake && d.feedback == "" && d.comments == []
    ensures d.startedAt == None && d.completedAt == None
    ensures d.likesCount == 0 && d.dislikesCount == 0 && d.likedBy == [] && d.dislikedBy == []
    ensures Valid(d) <==>
              && Truthy(body.category) && Truthy(body.detail)
              && (Truthy(body.owner) || Truthy(CallerName(caller)))
              && (!Truthy(body.priority) || body.priority.value in Priorities)
  {
    NewReport(docId, NumberOr(body.reportId, now), body.category,
              OrElse(body.priority, DefaultPriority), body.detail, PendingIntake,
              Or(body.owner, CallerName(caller)))
  }

  /** Whatever status the body carries, the created report is the same. */
  lemma DraftIgnoresStatus(body: CreateBody, caller: Option<Claims>, now: Time, docId: string, s: Option<string>)
    ensures Draft(body.(status := s), caller, now, docId) == Draft(body, caller, now, docId)
  {
  }

  /** Another report already holds this `reportId` or internal id. */
  predicate Taken(store: seq<Report>, d: Report)
  {
    exists i :: 0 <= i < |store| && (store[i].reportId == d.reportId || store[i].docId == d.docId)
  }

  /** `Report.create`: validate the draft, then insert it unless a unique
      index refuses it. `now` is the clock and `docId` the fresh internal id. */
  function Create(store: seq<Report>, body: CreateBody, caller: Option<Claims>, now: Time, docId: string): (out: Outcome)
    ensures var d := Draft(body, caller, now, docId);
            && (out.reply.Ok? <==> Valid(d) && !Taken(store, d))
            && (out.reply.Ok? ==> out.reply.report == d && out.store == store + [d])
            && (!Valid(d) ==> out == Outcome(Invalid, store))
            && (Valid(d) && Taken(store, d) ==> out == Outcome(DuplicateKey, store))
    ensures ValidStore(store) ==> ValidStore(out.store)
  {
    var d := Draft(body, caller, now, docId);
    if !Valid(d) then Outcome(Invalid, store)
    else if Taken(store, d) then Outcome(DuplicateKey, store)
    else Outcome(Ok(d), store + [d])
  }

  /** Creating a report whose `reportId` is already stored fails and leaves
      the store as it was. */
  lemma CreateRefusesExistingId(store: seq<Report>, body: CreateBody, caller: Option<Claims>, now: Time, docId: string, j: nat)
    requires j < |store| && store[j].reportId == Draft(body, caller, now, docId).reportId
    ensures var out := Create(store, body, caller, now, docId);
            !out.reply.Ok? && out.store == store
  {
  }

  /** `findOneAndUpdate({ reportId: id }, { status }, { new: true })`: the
      first report with that id gets the body's status, and the updated
      report is the reply. An absent status is dropped from the update, so
      the report is found and returned as it was. */
  function SetStatus(store: seq<Report>, id: int, status: Option<string>): (out: Outcome)
    ensures out.reply.NotFound? <==> forall j :: 0 <= j < |store| ==> store[j].reportId != id
    ensures out.reply.NotFound? ==> out.store == store
    ensures FindReport(store, id).Some? ==>
              var i := FindReport(store, id).value;
              var r := if status.Some? then store[i].(status := status.value) else store[i];
              out == Outcome(Ok(r), store[i := r])
    ensures ValidStore(store) ==> ValidStore(out.store)
  {
    match FindReport(store, id)
    case None => Outcome(NotFound, store)
    case Some(i) =>
      var r := if status.Some? then store[i].(status := status.value) else store[i];
      Outcome(Ok(r), store[i := r])
  }

  /** `findOneAndUpdate({ reportId: id }, { feedback }, { new: true })`. */
  function SetFeedback(store: seq<Report>, id: int, feedback: Option<string>): (out: Outcome)
    ensures out.reply.NotFound? <==> forall j :: 0 <= j < |store| ==> store[j].reportId != id
    ensures out.reply.NotFound? ==> out.store == store
    ensures FindReport(store, id).Some? ==>
              var i := FindReport(store, id).value;
              var r := if feedback.Some? then store[i].(feedback := feedback.value) else store[i];
              out == Outcome(Ok(r), store[i := r])
    ensures ValidStore(store) ==> ValidStore(out.store)
  {
    match FindReport(store, id)
    case None => Outcome(NotFound, store)
    case Some(i) =>
      var r := if feedback.Some? then store[i].(feedback := feedback.value) else store[i];
      Outcome(Ok(r), store[i := r])
  }

  /** In a valid store an update touches exactly the report holding the id:
      every other report is kept, and the one with the id carries the new
      status. */
  lemma {:induction false} SetStatusTouchesOnlyItsReport(store: seq<Report>, id: int, status: string, j: nat)
    requires ValidStore(store) && j < |store|
    ensures var out := SetStatus(store, id, Some(status));
            |out.store| == |store|
            && (store[j].reportId == id ==> out.store[j] == store[j].(status := status) && out.reply == Ok(out.store[j]))
            && (store[j].reportId != id ==> out.store[j] == store[j])
  {
    if store[j].reportId == id {
      FoundIsUnique(store, id, j);
    }
  }

  /** The same for feedback. */
  lemma {:induction false} SetFeedbackTouchesOnlyItsReport(store: seq<Report>, id: int, feedback: string, j: nat)
    requires ValidStore(store) && j < |store|
    ensures var out := SetFeedback(store, id, Some(feedback));
            |out.store| == |store|
            && (store[j].reportId == id ==> out.store[j] == store[j].(feedback := feedback) && out.reply == Ok(out.store[j]))
            && (store[j].reportId != id ==> out.store[j] == store[j])
  {
    if store[j].reportId == id {
      FoundIsUnique(store, id, j);
    }
  }

  /** The store without its `i`-th report; the others keep their order. */
  function RemoveAt(store: seq<Report>, i: nat): (rest: seq<Report>)
    requires i < |store|
    ensures |rest| == |store| - 1
    ensures forall k :: 0 <= k < |rest| ==> rest[k] == if k < i then store[k] else store[k + 1]
    ensures ValidStore(store) ==> ValidStore(rest)
  {
    store[..i] + store[i + 1..]
  }

  /** Delete by `reportId`, falling back to the internal id. The route's
      parameter is given three ways: `Number(id)` (none when it is NaN), the
      raw text the fallback uses, and whether that text casts to an internal
      id. A parameter that fails its cast makes that query throw, and the
      route answers 500. */
  function Delete(store: seq<Report>, id: Option<int>, rawId: string, castable: bool): (out: Outcome)
    ensures out.reply.CastFailure? <==>
              id.None? || (!castable && forall j :: 0 <= j < |store| ==> store[j].reportId != id.value)
    ensures out.reply.NotFound? <==>
              id.Some? && castable
              && forall j :: 0 <= j < |store| ==> store[j].reportId != id.value && store[j].docId != rawId
    ensures out.reply.NotFound? || out.reply.CastFailure? || out.reply == Deleted(rawId)
    ensures !out.reply.Deleted? ==> out.store == store
    ensures out.reply.Deleted? ==>
              exists i :: 0 <= i < |store| && out.store == RemoveAt(store, i)
                          && (store[i].reportId == id.value || store[i].docId == rawId)
    ensures ValidStore(store) ==> ValidStore(out.store)
  {
    if id.None? then Outcome(CastFailure, store)
    else
      match FindReport(store, id.value)
      case Some(i) => Outcome(Deleted(rawId), RemoveAt(store, i))
      case None =>
        if !castable then Outcome(CastFailure, store)
        else
          match First(store, (r: Report) => r.docId == rawId)
          case Some(i) => Outcome(Deleted(rawId), RemoveAt(store, i))
          case None => Outcome(NotFound, store)
  }

  /** As written, an unknown numeric id that is not also an internal id
      never reaches the "Report not found" answer: the fallback's cast
      fails first. */
  lemma DeleteUnknownNumberFails()
    ensures Delete([], Some(999), "999", false).reply == CastFailure
  {
  }

  /** Delete as evidently intended: a query whose parameter cannot be cast
      is skipped, so an id matching nothing is answered "Report not found". */
  function DeleteEitherId(store: seq<Report>, id: Option<int>, rawId: string, castable: bool): (out: Outcome)
    ensures !out.reply.CastFailure?
    ensures out.reply.NotFound? <==>
              forall j :: 0 <= j < |store| ==>
                (id.None? || store[j].reportId != id.value) && (!castable || store[j].docId != rawId)
    ensures out.reply.NotFound? || out.reply == Deleted(rawId)
    ensures out.reply.NotFound? ==> out.store == store
    ensures out.reply.Deleted? ==>
              exists i :: 0 <= i < |store| && out.store == RemoveAt(store, i)
                          && ((id.Some? && store[i].reportId == id.value) || (castable && store[i].docId == rawId))
    ensures ValidStore(store) ==> ValidStore(out.store)
  {
    var byNumber := if id.Some? then FindReport(store, id.value) else None;
    if byNumber.Some? then Outcome(Deleted(rawId), RemoveAt(store, byNumber.value))
    else
      var byInternal := if castable then First(store, (r: Report) => r.docId == rawId) else None;
      if byInternal.Some? then Outcome(Deleted(rawId), RemoveAt(store, byInternal.value))
      else Outcome(NotFound, store)
  }

  /** Wherever the route as written does not fail a cast, the intended
      version answers the same. */
  lemma {:induction false} DeleteEitherIdAgrees(store: seq<Report>, id: Option<int>, rawId: string, castable: bool)
    requires !Delete(store, id, rawId, castable).reply.CastFailure?
    ensures DeleteEitherId(store, id, rawId, castable) == Delete(store, id, rawId, castable)
  {
    assert id.Some?;
  }

  /** The `reportId` lookup comes first: when a report has that number, it is
      the one removed, whatever the fallback would have matched. */
  lemma DeletePrefersReportId(store: seq<Report>, id: int, rawId: string, castable: bool, j: nat)
    requires ValidStore(store) && j < |store| && store[j].reportId == id
    ensures Delete(store, Some(id), rawId, castable) == Outcome(Deleted(rawId), RemoveAt(store, j))
  {
    FoundIsUnique(store, id, j);
  }

  /** Once deleted, a report is gone: a later lookup of its id finds nothing. */
  lemma DeletedIsGone(store: seq<Report>, id: int, rawId: string, castable: bool, j: nat)
    requires ValidStore(store) && j < |store| && store[j].reportId == id
    ensures FindReport(Delete(store, Some(id), rawId, castable).store, id).None?
  {
    DeletePrefersReportId(store, id, rawId, castable, j);
    var rest := RemoveAt(store, j);
    forall k | 0 <= k < |rest|
      ensures rest[k].reportId != id
    {
      if k < j {
        assert rest[k] == store[k];
      } else {
        assert rest[k] == store[k + 1];
      }
    }
  }

  /** `report.save()` for the document loaded from position `i`: schema
      validation, then the write; a refused save leaves the store as it was. */
  method Save(doc: ReportDocument, store: seq<Report>, i: nat) returns (out: Outcome)
    requires i < |store|
    ensures Valid(doc.Snapshot()) ==> out == Outcome(Ok(doc.Snapshot()), store[i := doc.Snapshot()])
    ensures !Valid(doc.Snapshot()) ==> out == Outcome(Invalid, store)
  {
    var ok := doc.Validate();
    if ok {
      var saved := doc.Snapshot();
      out := Outcome(Ok(saved), store[i := saved]);
    } else {
      out := Outcome(Invalid, store);
    }
  }

  /** The like route: look the report up, toggle on the loaded document,
      save it back. */
  method LikeReport(store: seq<Report>, id: int, username: string) returns (out: Outcome)
    ensures out.reply.NotFound? <==> FindReport(store, id).None?
    ensures out.reply.NotFound? ==> out.store == store
    ensures FindReport(store, id).Some? ==>
              var i := FindReport(store, id).value;
              var r := Liked(store[i], username);
              out == (if Valid(r) then Outcome(Ok(r), store[i := r]) else Outcome(Invalid, store))
    ensures ValidStore(store) ==> ValidStore(out.store) && !out.reply.Invalid?
  {
    var found := FindReport(store, id);
    if found.None? {
      return Outcome(NotFound, store);
    }
    var i := found.value;
    var doc := new ReportDocument.Hydrate(store[i]);
    doc.ToggleLike(username);
    out := Save(doc, store, i);
    if ValidStore(store) {
      LikeKeepsTally(store[i], username);
    }
  }

  /** The dislike route. */
  method DislikeReport(store: seq<Report>, id: int, username: string) returns (out: Outcome)
    ensures out.reply.NotFound? <==> FindReport(store, id).None?
    ensures out.reply.NotFound? ==> out.store == store
    ensures FindReport(store, id).Some? ==>
              var i := FindReport(store, id).value;
              var r := Disliked(store[i], username);
              out == (if Valid(r) then Outcome(Ok(r), store[i := r]) else Outcome(Invalid, store))
    ensures ValidStore(store) ==> ValidStore(out.store) && !out.reply.Invalid?
  {
    var found := FindReport(store, id);
    if found.None? {
      return Outcome(NotFound, store);
    }
    var i := found.value;
    var doc := new ReportDocument.Hydrate(store[i]);
    doc.ToggleDislike(username);
    out := Save(doc, store, i);
    if ValidStore(store) {
      DislikeKeepsTally(store[i], username);
    }
  }

  /** The comment the route pushes: the body's author, else the caller's
      username, else "unknown"; stamped with the clock. */
  function NewComment(commentId: Option<string>, author: Option<string>, text: Option<string>,
                      caller: Option<Claims>, now: Time): (c: Comment)
    ensures c.author != "" && c.text == text && c.createdAt == now && c.commentId == commentId
    ensures Truthy(author) ==> c.author == author.value
    ensures !Truthy(author) && Truthy(CallerName(caller)) ==> c.author == caller.value.username
    ensures !Truthy(author) && !Truthy(CallerName(caller)) ==> c.author == "unknown"
  {
    Comment(commentId, OrElse(author, OrElse(CallerName(caller), "unknown")), text, now)
  }

  /** A comment pushed without an id never passes validation, so the report
      it is appended to cannot be saved. */
  lemma CommentWithoutIdIsRefused(r: Report, author: Option<string>, text: Option<string>,
                                  caller: Option<Claims>, now: Time)
    ensures !Valid(r.(comments := r.comments + [NewComment(None, author, text, caller, now)]))
  {
    AppendCommentValid(r, NewComment(None, author, text, caller, now));
  }

  /** The comment route as written: the pushed comment has no `commentId`,
      which the comment schema requires, so the save is refused whenever the
      report exists, and the store never changes. */
  method CommentReport(store: seq<Report>, id: int, author: Option<string>, text: Option<string>,
                       caller: Option<Claims>, now: Time) returns (out: Outcome)
    ensures out.reply.NotFound? <==> FindReport(store, id).None?
    ensures FindReport(store, id).Some? ==> out.reply == Invalid
    ensures out.store == store
  {
    var found := FindReport(store, id);
    if found.None? {
      return Outcome(NotFound, store);
    }
    var i := found.value;
    var doc := new ReportDocument.Hydrate(store[i]);
    doc.PushComment(NewComment(None, author, text, caller, now));
    CommentWithoutIdIsRefused(store[i], author, text, caller, now);
    out := Save(doc, store, i);
  }

  /** The comment route with a comment id assigned: exactly one comment is
      appended, after the earlier ones, when the text is present. */
  method CommentReportWithId(store: seq<Report>, id: int, commentId: string, author: Option<string>,
                             text: Option<string>, caller: Option<Claims>, now: Time) returns (out: Outcome)
    ensures out.reply.NotFound? <==> FindReport(store, id).None?
    ensures out.reply.NotFound? ==> out.store == store
    ensures FindReport(store, id).Some? ==>
              var i := FindReport(store, id).value;
              var c := NewComment(Some(commentId), author, text, caller, now);
              var r := store[i].(comments := store[i].comments + [c]);
              out == (if Valid(r) then Outcome(Ok(r), store[i := r]) else Outcome(Invalid, store))
    ensures FindReport(store, id).Some? && Valid(store[FindReport(store, id).value]) ==>
              (out.reply.Ok? <==> commentId != "" && Truthy(text))
    ensures ValidStore(store) ==> ValidStore(out.store)
  {
    var found := FindReport(store, id);
    if found.None? {
      return Outcome(NotFound, store);
    }
    var i := found.value;
    var doc := new ReportDocument.Hydrate(store[i]);
    var c := NewComment(Some(commentId), author, text, caller, now);
    doc.PushComment(c);
    AppendCommentValid(store[i], c);
    out := Save(doc, store, i);
  }
}
