/**
 * What GitHubEventActivityFormatter promises, stated over the functions of
 * module ActivityFormatter for any lookup `get` (the reader's
 * `getValueForKey` is one).
 *
 * `Lookups` lists, for each event type, the paths its formatter reads in
 * the order it reads them and the type of the variable each value is
 * assigned to. The first lemmas show that this table describes the
 * formatters: they read nothing else, the first lookup whose value does not
 * fit its variable decides the exception, and eleven of them fail only
 * then. The other lemmas cover what the remaining five do with their values.
 */
module FormatterProperties {
  import opened JsonValue
  import opened JavaString
  import opened EventTypes
  import opened ActivityFormatter
  import Reader

  /** The declared type of the variable a looked-up value is assigned to. */
  datatype FieldKind = StringField | LongField | MapField | ListField

  /** The exception the assignment of `v` to a variable of kind `k` throws, if any. */
  function CastError(v: Result<Json>, k: FieldKind): Option<Error>
  {
    if v.Err? then Some(v.error)
    else if v.value.Null? then (if k == LongField then Some(NullPointer) else None)
    else if (k == StringField && v.value.Str?) || (k == LongField && v.value.Int?)
         || (k == MapField && v.value.Obj?) || (k == ListField && v.value.Arr?) then None
    else Some(ClassCast)
  }

  /** The exception of the first lookup in `fields` that fails or does not fit, if any. */
  function FirstCastError(get: string -> Result<Json>, fields: seq<(string, FieldKind)>): Option<Error>
  {
    if fields == [] then None
    else if CastError(get(fields[0].0), fields[0].1).Some? then CastError(get(fields[0].0), fields[0].1)
    else FirstCastError(get, fields[1..])
  }

  /** The lookups of each formatter, in source order. */
  function Lookups(e: EventType): seq<(string, FieldKind)>
  {
    match e
    case MemberEvent => [("payload.member.login", StringField), ("repo.name", StringField)]
    case ForkEvent => [("payload.forkee.full_name", StringField), ("repo.name", StringField)]
    case CommitCommentEvent => [("payload.comment.commitId", StringField), ("repo.name", StringField)]
    case IssueCommentEvent =>
      [("payload.issue.number", LongField), ("repo.name", StringField),
       ("payload.issue", MapField), ("payload.action", StringField)]
    case PublicEvent => [("repo.name", StringField)]
    case PullRequestReviewEvent =>
      [("repo.name", StringField), ("payload.review.state", StringField),
       ("payload.pull_request.number", LongField)]
    case PullRequestReviewCommentEvent =>
      [("repo.name", StringField), ("payload", MapField), ("payload.pull_request.number", LongField)]
    case PushEvent => [("repo.name", StringField), ("payload.distinct_size", LongField)]
    case ReleaseEvent =>
      [("repo.name", StringField), ("payload.action", StringField), ("payload.release.name", StringField)]
    case SponsorEvent => [("payload.action", StringField), ("payload.sponsorable.login", StringField)]
    case WatchEvent => [("repo.name", StringField)]
    case DeleteEvent =>
      [("payload.ref_type", StringField), ("payload.ref", StringField), ("repo.name", StringField)]
    case CreateEvent =>
      [("repo.name", StringField), ("payload.ref", StringField), ("payload.ref_type", StringField)]
    case IssuesEvent =>
      [("repo.name", StringField), ("payload.action", StringField),
       ("payload.issue.number", LongField), ("payload.issue.title", StringField)]
    case GollumEvent => [("repo.name", StringField), ("payload.pages", ListField)]
    case PullRequestEvent =>
      [("repo.name", StringField), ("payload.action", StringField),
       ("payload.pull_request.number", LongField), ("payload.pull_request.title", StringField)]
  }

  /** The formatters that only put their values into a pattern. */
  predicate OnlyFormats(e: EventType)
  {
    !(e.CommitCommentEvent? || e.IssueCommentEvent? || e.PullRequestReviewCommentEvent?
      || e.SponsorEvent? || e.GollumEvent?)
  }

  // ---------------------------------------------------------------------------
  // The lookup table
  // ---------------------------------------------------------------------------

  /** One step of `FirstCastError` on every suffix of `fields`. */
  lemma {:induction false} FirstCastErrorSuffixes(get: string -> Result<Json>, fields: seq<(string, FieldKind)>)
    ensures forall j {:trigger FirstCastError(get, fields[j..])} :: 0 <= j < |fields| ==>
      FirstCastError(get, fields[j..]) ==
        (if CastError(get(fields[j].0), fields[j].1).Some? then CastError(get(fields[j].0), fields[j].1)
         else FirstCastError(get, fields[j + 1..]))
    ensures FirstCastError(get, fields[|fields|..]) == None
  {
    forall j | 0 <= j < |fields|
      ensures FirstCastError(get, fields[j..]) ==
        (if CastError(get(fields[j].0), fields[j].1).Some? then CastError(get(fields[j].0), fields[j].1)
         else FirstCastError(get, fields[j + 1..]))
    {
      assert fields[j..][0] == fields[j] && fields[j..][1..] == fields[j + 1..];
    }
    assert fields[|fields|..] == [];
  }

  // One event at a time: `FirstFailingLookupDecides` for each event type.

  lemma ForkLookupsDecide(get: string -> Result<Json>)
    ensures FirstCastError(get, Lookups(ForkEvent)).Some? ==>
      FormatterOf(ForkEvent, get) == Err(FirstCastError(get, Lookups(ForkEvent)).value)
  {
    FirstCastErrorSuffixes(get, Lookups(ForkEvent));
    assert Lookups(ForkEvent)[0..] == Lookups(ForkEvent);
  }

  lemma MemberLookupsDecide(get: string -> Result<Json>)
    ensures FirstCastError(get, Lookups(MemberEvent)).Some? ==>
      FormatterOf(MemberEvent, get) == Err(FirstCastError(get, Lookups(MemberEvent)).value)
  {
    FirstCastErrorSuffixes(get, Lookups(MemberEvent));
    assert Lookups(MemberEvent)[0..] == Lookups(MemberEvent);
  }

  lemma PublicLookupsDecide(get: string -> Result<Json>)
    ensures FirstCastError(get, Lookups(PublicEvent)).Some? ==>
      FormatterOf(PublicEvent, get) == Err(FirstCastError(get, Lookups(PublicEvent)).value)
  {
    FirstCastErrorSuffixes(get, Lookups(PublicEvent));
    assert Lookups(PublicEvent)[0..] == Lookups(PublicEvent);
  }

  lemma PullRequestReviewLookupsDecide(get: string -> Result<Json>)
    ensures FirstCastError(get, Lookups(PullRequestReviewEvent)).Some? ==>
      FormatterOf(PullRequestReviewEvent, get) == Err(FirstCastError(get, Lookups(PullRequestReviewEvent)).value)
  {
    FirstCastErrorSuffixes(get, Lookups(PullRequestReviewEvent));
    assert Lookups(PullRequestReviewEvent)[0..] == Lookups(PullRequestReviewEvent);
  }

  lemma PullRequestReviewCommentLookupsDecide(get: string -> Result<Json>)
    ensures FirstCastError(get, Lookups(PullRequestReviewCommentEvent)).Some? ==>
      FormatterOf(PullRequestReviewCommentEvent, get) == Err(FirstCastError(get, Lookups(PullRequestReviewCommentEvent)).value)
  {
    FirstCastErrorSuffixes(get, Lookups(PullRequestReviewCommentEvent));
    assert Lookups(PullRequestReviewCommentEvent)[0..] == Lookups(PullRequestReviewCommentEvent);
  }

  lemma PushLookupsDecide(get: string -> Result<Json>)
    ensures FirstCastError(get, Lookups(PushEvent)).Some? ==>
      FormatterOf(PushEvent, get) == Err(FirstCastError(get, Lookups(PushEvent)).value)
  {
    FirstCastErrorSuffixes(get, Lookups(PushEvent));
    assert Lookups(PushEvent)[0..] == Lookups(PushEvent);
  }

  lemma ReleaseLookupsDecide(get: string -> Result<Json>)
    ensures FirstCastError(get, Lookups(ReleaseEvent)).Some? ==>
      FormatterOf(ReleaseEvent, get) == Err(FirstCastError(get, Lookups(ReleaseEvent)).value)
  {
    FirstCastErrorSuffixes(get, Lookups(ReleaseEvent));
    assert Lookups(ReleaseEvent)[0..] == Lookups(ReleaseEvent);
  }

  lemma SponsorLookupsDecide(get: string -> Result<Json>)
    ensures FirstCastError(get, Lookups(SponsorEvent)).Some? ==>
      FormatterOf(SponsorEvent, get) == Err(FirstCastError(get, Lookups(SponsorEvent)).value)
  {
    FirstCastErrorSuffixes(get, Lookups(SponsorEvent));
    assert Lookups(SponsorEvent)[0..] == Lookups(SponsorEvent);
  }

  lemma WatchLookupsDecide(get: string -> Result<Json>)
    ensures FirstCastError(get, Lookups(WatchEvent)).Some? ==>
      FormatterOf(WatchEvent, get) == Err(FirstCastError(get, Lookups(WatchEvent)).value)
  {
    FirstCastErrorSuffixes(get, Lookups(WatchEvent));
    assert Lookups(WatchEvent)[0..] == Lookups(WatchEvent);
  }

  lemma IssueCommentLookupsDecide(get: string -> Result<Json>)
    ensures FirstCastError(get, Lookups(IssueCommentEvent)).Some? ==>
      FormatterOf(IssueCommentEvent, get) == Err(FirstCastError(get, Lookups(IssueCommentEvent)).value)
  {
    FirstCastErrorSuffixes(get, Lookups(IssueCommentEvent));
    assert Lookups(IssueCommentEvent)[0..] == Lookups(IssueCommentEvent);
  }

  lemma DeleteLookupsDecide(get: string -> Result<Json>)
    ensures FirstCastError(get, Lookups(DeleteEvent)).Some? ==>
      FormatterOf(DeleteEvent, get) == Err(FirstCastError(get, Lookups(DeleteEvent)).value)
  {
    FirstCastErrorSuffixes(get, Lookups(DeleteEvent));
    assert Lookups(DeleteEvent)[0..] == Lookups(DeleteEvent);
  }

  lemma CreateLookupsDecide(get: string -> Result<Json>)
    ensures FirstCastError(get, Lookups(CreateEvent)).Some? ==>
      FormatterOf(CreateEvent, get) == Err(FirstCastError(get, Lookups(CreateEvent)).value)
  {
    FirstCastErrorSuffixes(get, Lookups(CreateEvent));
    assert Lookups(CreateEvent)[0..] == Lookups(CreateEvent);
  }

  lemma IssuesLookupsDecide(get: string -> Result<Json>)
    ensures FirstCastError(get, Lookups(IssuesEvent)).Some? ==>
      FormatterOf(IssuesEvent, get) == Err(FirstCastError(get, Lookups(IssuesEvent)).value)
  {
    FirstCastErrorSuffixes(get, Lookups(IssuesEvent));
    assert Lookups(IssuesEvent)[0..] == Lookups(IssuesEvent);
  }

  lemma GollumLookupsDecide(get: string -> Result<Json>)
    ensures FirstCastError(get, Lookups(GollumEvent)).Some? ==>
      FormatterOf(GollumEvent, get) == Err(FirstCastError(get, Lookups(GollumEvent)).value)
  {
    FirstCastErrorSuffixes(get, Lookups(GollumEvent));
    assert Lookups(GollumEvent)[0..] == Lookups(GollumEvent);
  }

  lemma PullRequestLookupsDecide(get: string -> Result<Json>)
    ensures FirstCastError(get, Lookups(PullRequestEvent)).Some? ==>
      FormatterOf(PullRequestEvent, get) == Err(FirstCastError(get, Lookups(PullRequestEvent)).value)
  {
    FirstCastErrorSuffixes(get, Lookups(PullRequestEvent));
    assert Lookups(PullRequestEvent)[0..] == Lookups(PullRequestEvent);
  }

  /**
   * The first lookup that fails or does not fit its variable decides the
   * exception. The commit comment is the one exception to the rule: it
   * cuts the commit id before it reads the repository (see `CommitIdCut`).
   */
  lemma FirstFailingLookupDecides(e: EventType, get: string -> Result<Json>)
    requires !e.CommitCommentEvent?
    ensures FirstCastError(get, Lookups(e)).Some? ==>
      FormatterOf(e, get) == Err(FirstCastError(get, Lookups(e)).value)
  {
    match e {
      case ForkEvent => ForkLookupsDecide(get);
      case MemberEvent => MemberLookupsDecide(get);
      case PublicEvent => PublicLookupsDecide(get);
      case PullRequestReviewEvent => PullRequestReviewLookupsDecide(get);
      case PullRequestReviewCommentEvent => PullRequestReviewCommentLookupsDecide(get);
      case PushEvent => PushLookupsDecide(get);
      case ReleaseEvent => ReleaseLookupsDecide(get);
      case SponsorEvent => SponsorLookupsDecide(get);
      case WatchEvent => WatchLookupsDecide(get);
      case IssueCommentEvent => IssueCommentLookupsDecide(get);
      case DeleteEvent => DeleteLookupsDecide(get);
      case CreateEvent => CreateLookupsDecide(get);
      case IssuesEvent => IssuesLookupsDecide(get);
      case GollumEvent => GollumLookupsDecide(get);
      case PullRequestEvent => PullRequestLookupsDecide(get);
    }
  }

  /** The eleven formatters that only format succeed exactly when every lookup fits. */
  lemma FormatSucceedsWhenLookupsFit(e: EventType, get: string -> Result<Json>)
    requires OnlyFormats(e)
    ensures FormatterOf(e, get).Ok? <==> FirstCastError(get, Lookups(e)).None?
  {
    FirstFailingLookupDecides(e, get);
    if e.ForkEvent? || e.MemberEvent? || e.PublicEvent? || e.PullRequestReviewEvent? {
      SucceedsWhenLookupsFit1(e, get);
    } else if e.PushEvent? || e.ReleaseEvent? || e.WatchEvent? || e.DeleteEvent? {
      SucceedsWhenLookupsFit2(e, get);
    } else {
      SucceedsWhenLookupsFit3(e, get);
    }
  }

  // FormatSucceedsWhenLookupsFit, a group of event types at a time.

  lemma SucceedsWhenLookupsFit1(e: EventType, get: string -> Result<Json>)
    requires e.ForkEvent? || e.MemberEvent? || e.PublicEvent? || e.PullRequestReviewEvent?
    ensures FirstCastError(get, Lookups(e)).None? ==> FormatterOf(e, get).Ok?
  {
    FirstCastErrorSuffixes(get, Lookups(e));
    assert Lookups(e)[0..] == Lookups(e);
    match e {
      case ForkEvent =>
      case MemberEvent =>
      case PublicEvent =>
      case PullRequestReviewEvent =>
    }
  }

  lemma SucceedsWhenLookupsFit2(e: EventType, get: string -> Result<Json>)
    requires e.PushEvent? || e.ReleaseEvent? || e.WatchEvent? || e.DeleteEvent?
    ensures FirstCastError(get, Lookups(e)).None? ==> FormatterOf(e, get).Ok?
  {
    FirstCastErrorSuffixes(get, Lookups(e));
    assert Lookups(e)[0..] == Lookups(e);
    match e {
      case PushEvent =>
      case ReleaseEvent =>
      case WatchEvent =>
      case DeleteEvent =>
    }
  }

  lemma SucceedsWhenLookupsFit3(e: EventType, get: string -> Result<Json>)
    requires e.CreateEvent? || e.IssuesEvent? || e.PullRequestEvent?
    ensures FirstCastError(get, Lookups(e)).None? ==> FormatterOf(e, get).Ok?
  {
    FirstCastErrorSuffixes(get, Lookups(e));
    assert Lookups(e)[0..] == Lookups(e);
    match e {
      case CreateEvent =>
      case IssuesEvent =>
      case PullRequestEvent =>
    }
  }

  /** A formatter reads nothing but its lookups: lookups that agree on them give the same result. */
  lemma FormatterReadsOnlyLookups(e: EventType, g1: string -> Result<Json>, g2: string -> Result<Json>)
    requires forall i :: 0 <= i < |Lookups(e)| ==> g1(Lookups(e)[i].0) == g2(Lookups(e)[i].0)
    ensures FormatterOf(e, g1) == FormatterOf(e, g2)
  {
    if e.CommitCommentEvent? || e.ForkEvent? || e.MemberEvent? || e.PublicEvent? {
      ReadsOnlyLookups1(e, g1, g2);
    } else if e.PullRequestReviewEvent? || e.PullRequestReviewCommentEvent? || e.PushEvent? || e.ReleaseEvent? {
      ReadsOnlyLookups2(e, g1, g2);
    } else if e.SponsorEvent? || e.WatchEvent? || e.IssueCommentEvent? || e.DeleteEvent? {
      ReadsOnlyLookups3(e, g1, g2);
    } else {
      ReadsOnlyLookups4(e, g1, g2);
    }
  }

  // FormatterReadsOnlyLookups, a group of event types at a time.

  lemma ReadsOnlyLookups1(e: EventType, g1: string -> Result<Json>, g2: string -> Result<Json>)
    requires e.CommitCommentEvent? || e.ForkEvent? || e.MemberEvent? || e.PublicEvent?
    requires forall i :: 0 <= i < |Lookups(e)| ==> g1(Lookups(e)[i].0) == g2(Lookups(e)[i].0)
    ensures FormatterOf(e, g1) == FormatterOf(e, g2)
  {
    var paths := Lookups(e);
    assert g1(paths[0].0) == g2(paths[0].0);
    assert |paths| > 1 ==> g1(paths[1].0) == g2(paths[1].0);
    match e {
      case CommitCommentEvent =>
      case ForkEvent =>
      case MemberEvent =>
      case PublicEvent =>
    }
  }

  lemma ReadsOnlyLookups2(e: EventType, g1: string -> Result<Json>, g2: string -> Result<Json>)
    requires e.PullRequestReviewEvent? || e.PullRequestReviewCommentEvent? || e.PushEvent? || e.ReleaseEvent?
    requires forall i :: 0 <= i < |Lookups(e)| ==> g1(Lookups(e)[i].0) == g2(Lookups(e)[i].0)
    ensures FormatterOf(e, g1) == FormatterOf(e, g2)
  {
    var paths := Lookups(e);
    assert g1(paths[0].0) == g2(paths[0].0);
    assert |paths| > 1 ==> g1(paths[1].0) == g2(paths[1].0);
    assert |paths| > 2 ==> g1(paths[2].0) == g2(paths[2].0);
    match e {
      case PullRequestReviewEvent =>
      case PullRequestReviewCommentEvent =>
      case PushEvent =>
      case ReleaseEvent =>
    }
  }

  lemma ReadsOnlyLookups3(e: EventType, g1: string -> Result<Json>, g2: string -> Result<Json>)
    requires e.SponsorEvent? || e.WatchEvent? || e.IssueCommentEvent? || e.DeleteEvent?
    requires forall i :: 0 <= i < |Lookups(e)| ==> g1(Lookups(e)[i].0) == g2(Lookups(e)[i].0)
    ensures FormatterOf(e, g1) == FormatterOf(e, g2)
  {
    var paths := Lookups(e);
    assert g1(paths[0].0) == g2(paths[0].0);
    assert |paths| > 1 ==> g1(paths[1].0) == g2(paths[1].0);
    assert |paths| > 2 ==> g1(paths[2].0) == g2(paths[2].0);
    assert |paths| > 3 ==> g1(paths[3].0) == g2(paths[3].0);
    match e {
      case SponsorEvent =>
      case WatchEvent =>
      case IssueCommentEvent =>
      case DeleteEvent =>
    }
  }

  lemma ReadsOnlyLookups4(e: EventType, g1: string -> Result<Json>, g2: string -> Result<Json>)
    requires e.CreateEvent? || e.IssuesEvent? || e.GollumEvent? || e.PullRequestEvent?
    requires forall i :: 0 <= i < |Lookups(e)| ==> g1(Lookups(e)[i].0) == g2(Lookups(e)[i].0)
    ensures FormatterOf(e, g1) == FormatterOf(e, g2)
  {
    var paths := Lookups(e);
    assert g1(paths[0].0) == g2(paths[0].0);
    assert |paths| > 1 ==> g1(paths[1].0) == g2(paths[1].0);
    assert |paths| > 2 ==> g1(paths[2].0) == g2(paths[2].0);
    assert |paths| > 3 ==> g1(paths[3].0) == g2(paths[3].0);
    match e {
      case CreateEvent =>
      case IssuesEvent =>
      case GollumEvent =>
      case PullRequestEvent =>
    }
  }

  // ---------------------------------------------------------------------------
  // The formatters that do more than format
  // ---------------------------------------------------------------------------

  /**
   * The commit comment shows the first six characters of the commit id: a
   * null id fails with a NullPointerException and a shorter one with a
   * StringIndexOutOfBoundsException, before the repository is read.
   */
  lemma CommitIdCut(get: string -> Result<Json>, id: Option<string>)
    requires AsString(get("payload.comment.commitId")) == Ok(id)
    ensures id.None? ==> FormatCommitComment(get) == Err(NullPointer)
    ensures id.Some? && |id.value| < 6 ==> FormatCommitComment(get) == Err(StringIndexOutOfBounds)
    ensures id.Some? && |id.value| >= 6 && AsString(get("repo.name")).Ok? ==>
      FormatCommitComment(get) == Ok("Commented on commit " + id.value[..6] + " in " + Text(AsString(get("repo.name")).value))
  {
  }

  /** Commit ids that agree on their first six characters give the same sentence. */
  lemma CommitIdPrefixOnly(g1: string -> Result<Json>, g2: string -> Result<Json>, id1: string, id2: string)
    requires g1("payload.comment.commitId") == Ok(Str(id1)) && g2("payload.comment.commitId") == Ok(Str(id2))
    requires |id1| >= 6 && |id2| >= 6 && id1[..6] == id2[..6]
    requires g1("repo.name") == g2("repo.name")
    ensures FormatCommitComment(g1) == FormatCommitComment(g2)
  {
  }

  /**
   * An issue comment names a pull request exactly when the issue has a
   * `pull_request` key; a null issue fails once all four lookups are done.
   */
  lemma IssueCommentRef(get: string -> Result<Json>, number: int, repo: Option<string>,
                        issue: Option<Entries>, action: Option<string>)
    requires get("payload.issue.number") == Ok(Int(number))
    requires AsString(get("repo.name")) == Ok(repo)
    requires AsMap(get("payload.issue")) == Ok(issue)
    requires AsString(get("payload.action")) == Ok(action)
    ensures issue.None? ==> FormatIssueComment(get) == Err(NullPointer)
    ensures issue.Some? ==>
      var ref := if "pull_request" in Keys(issue.value) then "pull request" else "issue";
      FormatIssueComment(get) == Ok(Text(action) + " a comment on " + ref + " #" + LongToString(number) + " in " + Text(repo))
  {
  }

  /**
   * A review comment is reported as edited exactly when the payload has a
   * `changes` key; a null payload fails once all three lookups are done.
   */
  lemma ReviewCommentAction(get: string -> Result<Json>, repo: Option<string>, payload: Option<Entries>, prId: int)
    requires AsString(get("repo.name")) == Ok(repo)
    requires AsMap(get("payload")) == Ok(payload)
    requires get("payload.pull_request.number") == Ok(Int(prId))
    ensures payload.None? ==> FormatPullRequestReviewComment(get) == Err(NullPointer)
    ensures payload.Some? ==>
      var action := if "changes" in Keys(payload.value) then "Edited" else "Added";
      FormatPullRequestReviewComment(get) == Ok(action + " on PR " + LongToString(prId) + " in " + Text(repo))
  {
  }

  /**
   * A sponsorship whose action is `pending_tier_change` is a tier-change
   * request; any other action is quoted; a null action fails.
   */
  lemma SponsorshipAction(get: string -> Result<Json>, action: Option<string>, sponsorable: Option<string>)
    requires AsString(get("payload.action")) == Ok(action)
    requires AsString(get("payload.sponsorable.login")) == Ok(sponsorable)
    ensures action.None? ==> FormatSponsorship(get) == Err(NullPointer)
    ensures action == Some(PendingTierChange) ==>
      FormatSponsorship(get) == Ok("requested a tier change for sponsorship to sponsorable " + Text(sponsorable))
    ensures action.Some? && action.value != PendingTierChange ==>
      FormatSponsorship(get) == Ok(action.value + " a sponsorship for " + Text(sponsorable))
  {
  }

  /** A created ref is named in upper case; with no ref the repository is named instead. */
  lemma CreateRef(get: string -> Result<Json>, repo: Option<string>, ref: Option<string>, refType: Option<string>)
    requires AsString(get("repo.name")) == Ok(repo)
    requires AsString(get("payload.ref")) == Ok(ref)
    requires AsString(get("payload.ref_type")) == Ok(refType)
    ensures ref.None? ==> FormatCreate(get) == Ok("Created " + Text(refType) + " " + Text(repo))
    ensures ref.Some? ==>
      FormatCreate(get) == Ok("Created " + Text(refType) + " " + ToUpper(ref.value) + " in " + Text(repo))
  {
  }

  // ---------------------------------------------------------------------------
  // The two loops: formatEvents over the events, gollum over the pages
  // ---------------------------------------------------------------------------

  /** When every element succeeds, the loop appends one result per element, in order. */
  lemma {:induction false} CollectOk<T>(f: T -> Result<string>, xs: seq<T>, acc: seq<string>)
    requires forall i :: 0 <= i < |xs| ==> f(xs[i]).Ok?
    ensures Collect(f, xs, acc).Ok?
    ensures |Collect(f, xs, acc).value| == |acc| + |xs|
    ensures Collect(f, xs, acc).value[..|acc|] == acc
    ensures forall i :: 0 <= i < |xs| ==> f(xs[i]) == Ok(Collect(f, xs, acc).value[|acc| + i])
    decreases |xs|
  {
    if xs != [] {
      var first := f(xs[0]).value;
      var rest := xs[1..];
      assert forall i :: 0 <= i < |rest| ==> rest[i] == xs[i + 1];
      CollectOk(f, rest, acc + [first]);
      assert Collect(f, xs, acc) == Collect(f, rest, acc + [first]);
      var ys := Collect(f, rest, acc + [first]).value;
      assert ys[..|acc| + 1] == acc + [first];
      assert ys[..|acc|] == (acc + [first])[..|acc|];
      assert ys[|acc|] == (acc + [first])[|acc|];
      forall i | 0 <= i < |xs|
        ensures f(xs[i]) == Ok(ys[|acc| + i])
      {
        if i > 0 {
          assert f(rest[i - 1]) == Ok(ys[|acc + [first]| + (i - 1)]);
        }
      }
    }
  }

  /** The first element that fails decides the exception of the loop. */
  lemma {:induction false} CollectFails<T>(f: T -> Result<string>, xs: seq<T>, acc: seq<string>, k: nat)
    requires k < |xs| && f(xs[k]).Err?
    requires forall i :: 0 <= i < k ==> f(xs[i]).Ok?
    ensures Collect(f, xs, acc) == Err(f(xs[k]).error)
    decreases k
  {
    if k > 0 {
      var rest := xs[1..];
      assert forall i :: 0 <= i < |rest| ==> rest[i] == xs[i + 1];
      CollectFails(f, rest, acc + [f(xs[0]).value], k - 1);
    }
  }

  // ---------------------------------------------------------------------------
  // Gollum: one line per wiki page
  // ---------------------------------------------------------------------------

  /** A page that is a map renders its action and name, `null` for a missing or null one. */
  lemma PageSentence(m: Entries, repo: Option<string>, action: Option<string>, pageName: Option<string>)
    requires AsString(Ok(GetOrNull(m, "action"))) == Ok(action)
    requires AsString(Ok(GetOrNull(m, "page_name"))) == Ok(pageName)
    ensures PageLine(Obj(m), repo) == Ok(Text(action) + " wiki page \"" + Text(pageName) + "\" in " + Text(repo))
  {
  }

  /** A null page, or one that is not a map, fails the element cast. */
  lemma PageNotAMap(page: Json, repo: Option<string>)
    requires !page.Obj?
    ensures PageLine(page, repo) == Err(if page.Null? then NullPointer else ClassCast)
  {
  }

  /** An event with no pages formats to the empty string. */
  lemma GollumNoPages(get: string -> Result<Json>)
    requires AsString(get("repo.name")).Ok?
    requires get("payload.pages") == Ok(Arr([]))
    ensures FormatGollum(get) == Ok("")
  {
  }

  /**
   * When no page line holds a newline, the gollum sentence is one line per
   * page: cutting it at newlines gives the page lines back, in order.
   */
  lemma GollumOneLinePerPage(get: string -> Result<Json>, repo: Option<string>, pages: seq<Json>)
    requires AsString(get("repo.name")) == Ok(repo)
    requires get("payload.pages") == Ok(Arr(pages)) && |pages| >= 1
    requires forall i :: 0 <= i < |pages| ==> PageLine(pages[i], repo).Ok? && '\n' !in PageLine(pages[i], repo).value
    ensures FormatGollum(get).Ok?
    ensures |SplitAll(FormatGollum(get).value, '\n')| == |pages|
    ensures forall i :: 0 <= i < |pages| ==> PageLine(pages[i], repo) == Ok(SplitAll(FormatGollum(get).value, '\n')[i])
  {
    var lines := GollumLines(get, repo, pages);
    forall i | 0 <= i < |lines|
      ensures '\n' !in lines[i]
    {
      assert PageLine(pages[i], repo) == Ok(lines[i]);
    }
    SplitAllOfJoin(lines, '\n');
  }

  /** When every page gives a line, the gollum text is those lines joined, one per page. */
  lemma GollumLines(get: string -> Result<Json>, repo: Option<string>, pages: seq<Json>) returns (lines: seq<string>)
    requires AsString(get("repo.name")) == Ok(repo)
    requires get("payload.pages") == Ok(Arr(pages))
    requires forall i :: 0 <= i < |pages| ==> PageLine(pages[i], repo).Ok?
    ensures FormatGollum(get) == Ok(Join(lines, '\n'))
    ensures |lines| == |pages|
    ensures forall i :: 0 <= i < |pages| ==> PageLine(pages[i], repo) == Ok(lines[i])
  {
    var f := PageStep(repo);
    assert forall i :: 0 <= i < |pages| ==> f(pages[i]) == PageLine(pages[i], repo);
    CollectOk(f, pages, []);
    lines := Collect(f, pages, []).value;
    forall i | 0 <= i < |pages|
      ensures PageLine(pages[i], repo) == Ok(lines[i])
    {
      assert f(pages[i]) == Ok(lines[0 + i]);
    }
  }

  // ---------------------------------------------------------------------------
  // formatEvents
  // ---------------------------------------------------------------------------
}
