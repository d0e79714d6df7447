/// The shape of a maintenance report and of its comments, with the defaults,
/// the priority enumeration and the required fields the document schema
/// declares. `Valid` is what a save or a create checks before writing.
module ReportSchema {
  import opened Js

  /** Milliseconds since the epoch, as `Date.now()` gives them. */
  type Time = int

  /** The status every new report starts in ("awaiting intake"). */
  const PendingIntake: string := "รอรับเรื่อง"

  const DefaultPriority: string := "medium"

  /** The values the schema's enum validator admits for `priority`. */
  const Priorities: set<string> := {"low", "medium", "high", "critical"}

  /** A comment as stored; `commentId` and `text` may be missing from what a
      handler pushes, which is why they are optional here. */
  datatype Comment = Comment(commentId: Option<string>, author: string, text: Option<string>, createdAt: Time)

  /** A report document. `docId` is the store's internal identifier; the
      required string fields are optional because a document may be built
      without them and is then refused by validation. */
  datatype Report = Report(
    docId: string,
    reportId: int,
    category: Option<string>,
    priority: string,
    detail: Option<string>,
    status: string,
    owner: Option<string>,
    feedback: string,
    likesCount: int,
    dislikesCount: int,
    likedBy: seq<string>,
    dislikedBy: seq<string>,
    comments: seq<Comment>,
    startedAt: Option<Time>,
    completedAt: Option<Time>)

  /** A required String path is satisfied only by a non-empty string. */
  predicate ValidComment(c: Comment)
  {
    Truthy(c.commentId) && c.author != "" && Truthy(c.text)
  }

  /** What schema validation demands of a report before it is written. */
  predicate Valid(r: Report)
  {
    && Truthy(r.category)
    && Truthy(r.detail)
    && Truthy(r.owner)
    && r.priority in Priorities
    && forall i :: 0 <= i < |r.comments| ==> ValidComment(r.comments[i])
  }

  /** A comment appended to a report keeps it valid exactly when the
      comment itself is valid. */
  lemma AppendCommentValid(r: Report, c: Comment)
    ensures Valid(r.(comments := r.comments + [c])) <==> Valid(r) && ValidComment(c)
  {
    var cs := r.comments + [c];
    assert cs[|r.comments|] == c;
    assert forall i :: 0 <= i < |r.comments| ==> cs[i] == r.comments[i];
  }

  /** The fields of a report the vote handlers change. */
  predicate SameApartFromVotes(r: Report, r': Report)
  {
    r' == r.(likedBy := r'.likedBy, likesCount := r'.likesCount,
             dislikedBy := r'.dislikedBy, dislikesCount := r'.dislikesCount)
  }

  /** Counters that never went below zero. */
  predicate CountersNonNegative(r: Report)
  {
    r.likesCount >= 0 && r.dislikesCount >= 0
  }

  /** Each counter equals the length of its list of voters. */
  predicate CountersMatchVoters(r: Report)
  {
    r.likesCount == |r.likedBy| && r.dislikesCount == |r.dislikedBy|
  }

  /** Every user is listed at most once, in at most one of the two lists. */
  ghost predicate ExclusiveVotes(r: Report)
  {
    forall u :: multiset(r.likedBy)[u] + multiset(r.dislikedBy)[u] <= 1
  }

  /** The vote bookkeeping every report keeps. */
  ghost predicate WellTallied(r: Report)
  {
    CountersNonNegative(r) && CountersMatchVoters(r) && ExclusiveVotes(r)
  }

  /** A new report document: the given fields, and the schema's defaults for
      the rest. */
  function NewReport(docId: string, reportId: int, category: Option<string>, priority: string,
                     detail: Option<string>, status: string, owner: Option<string>): (r: Report)
    ensures r.likedBy == [] && r.dislikedBy == [] && r.likesCount == 0 && r.dislikesCount == 0
    ensures r.feedback == "" && r.startedAt == None && r.completedAt == None && r.comments == []
    ensures r.docId == docId && r.reportId == reportId && r.category == category && r.priority == priority
    ensures r.detail == detail && r.owner == owner && r.status == status && WellTallied(r)
    ensures Valid(r) <==> Truthy(category) && Truthy(detail) && Truthy(owner) && priority in Priorities
  {
    Report(docId, reportId, category, priority, detail, status, owner,
           "", 0, 0, [], [], [], None, None)
  }
}
