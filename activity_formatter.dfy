/**
 * GitHubEventActivityFormatter: one sentence per GitHub event.
 *
 * `FormatEvents` reads each event's `type` and switches on it to one of
 * sixteen formatters. Each formatter looks up a few paths through the
 * event's reader and fills a `String.format` pattern. The lookups run in
 * the order the Java code runs them, each followed by the cast its
 * assignment implies, so the first failing lookup decides the exception:
 *
 *   - assigning to a `String` lets a string or null through;
 *   - assigning to a `long` unboxes a `Long`, so null fails with a
 *     NullPointerException;
 *   - assigning to a `Map` or a `List` lets that type or null through;
 *   - anything else is a ClassCastException.
 *
 * `%s` renders null as `null`, `%S` upper-cases what `%s` renders, and
 * `%d` renders a long in decimal.
 */
module ActivityFormatter {
  import opened JsonValue
  import opened JavaString
  import opened EventTypes
  import Reader

  // ---------------------------------------------------------------------------
  // Lookups and the casts of their assignments
  // ---------------------------------------------------------------------------

  /**
   * `readerData.getValueForKey` as a function of the path. The formatters
   * take it as a parameter: they depend on the event only through it.
   */
  function ReaderLookup(rd: Reader.JsonReader): string -> Result<Json>
  {
    path => Reader.Resolve(rd.data, rd.delimiter, path)
  }

  /** A value assigned to a `String`: `None` is Java's null. */
  function AsString(v: Result<Json>): Result<Option<string>>
  {
    var j :- v;
    match j
    case Null => Ok(None)
    case Str(s) => Ok(Some(s))
    case _ => Err(ClassCast)
  }

  /** A value assigned to a `long`: cast to `Long`, then unboxed. */
  function AsLong(v: Result<Json>): Result<int>
  {
    var j :- v;
    match j
    case Null => Err(NullPointer)
    case Int(n) => Ok(n)
    case _ => Err(ClassCast)
  }

  /** A value assigned to a `Map<String, Object>`. */
  function AsMap(v: Result<Json>): Result<Option<Entries>>
  {
    var j :- v;
    match j
    case Null => Ok(None)
    case Obj(m) => Ok(Some(m))
    case _ => Err(ClassCast)
  }

  /** A value assigned to a `List`. */
  function AsList(v: Result<Json>): Result<Option<seq<Json>>>
  {
    var j :- v;
    match j
    case Null => Ok(None)
    case Arr(items) => Ok(Some(items))
    case _ => Err(ClassCast)
  }

  /** `%s` of a string that may be null. */
  function Text(o: Option<string>): string
  {
    match o
    case Some(s) => s
    case None => "null"
  }

  /** `%S`. */
  function UpperText(o: Option<string>): string
  {
    ToUpper(Text(o))
  }

  /**
   * A Java for-each loop that adds one result per element to a list and
   * lets the first exception escape; `acc` is the list built so far.
   */
  function Collect<T>(f: T -> Result<string>, xs: seq<T>, acc: seq<string>): Result<seq<string>>
  {
    if xs == [] then Ok(acc)
    else
      var y :- f(xs[0]);
      Collect(f, xs[1..], acc + [y])
  }

  // ---------------------------------------------------------------------------
  // The sixteen formatters
  // ---------------------------------------------------------------------------

  /** `memberEventFormatter`. */
  function FormatMember(get: string -> Result<Json>): Result<string>
  {
    var member :- AsString(get("payload.member.login"));
    var repo :- AsString(get("repo.name"));
    Ok("Added " + Text(member) + " as a collaborator to " + Text(repo))
  }

  /** `forkEventFormatter`. */
  function FormatFork(get: string -> Result<Json>): Result<string>
  {
    var source :- AsString(get("payload.forkee.full_name"));
    var destination :- AsString(get("repo.name"));
    Ok("Forked " + Text(source) + " -> " + Text(destination))
  }

  /** `commitCommentEventFormatter`: `substring(0, 6)` of the commit id. */
  function FormatCommitComment(get: string -> Result<Json>): Result<string>
  {
    var commitId :- AsString(get("payload.comment.commitId"));
    if commitId.None? then Err(NullPointer)
    else if |commitId.value| < 6 then Err(StringIndexOutOfBounds)
    else
      var short := commitId.value[..6];
      var repo :- AsString(get("repo.name"));
      Ok("Commented on commit " + short + " in " + Text(repo))
  }

  /** `issueCommentEventFormatter`. */
  function FormatIssueComment(get: string -> Result<Json>): Result<string>
  {
    var issueNumber :- AsLong(get("payload.issue.number"));
    var repo :- AsString(get("repo.name"));
    var issueData :- AsMap(get("payload.issue"));
    var action :- AsString(get("payload.action"));
    if issueData.None? then Err(NullPointer)
    else
      var ref := if "pull_request" in Keys(issueData.value) then "pull request" else "issue";
      Ok(Text(action) + " a comment on " + ref + " #" + LongToString(issueNumber) + " in " + Text(repo))
  }

  /** `publicEventFormatter`. */
  function FormatPublic(get: string -> Result<Json>): Result<string>
  {
    var repo :- AsString(get("repo.name"));
    Ok("Made " + UpperText(repo) + " public")
  }

  /** `pullRequestReviewEventFormatter`. */
  function FormatPullRequestReview(get: string -> Result<Json>): Result<string>
  {
    var repo :- AsString(get("repo.name"));
    var action :- AsString(get("payload.review.state"));
    var prId :- AsLong(get("payload.pull_request.number"));
    Ok(Text(action) + " on PR " + LongToString(prId) + " in " + Text(repo))
  }

  /** `pullRequestReviewCommentEventFormatter`. */
  function FormatPullRequestReviewComment(get: string -> Result<Json>): Result<string>
  {
    var repo :- AsString(get("repo.name"));
    var payload :- AsMap(get("payload"));
    var prId :- AsLong(get("payload.pull_request.number"));
    if payload.None? then Err(NullPointer)
    else
      var action := if "changes" in Keys(payload.value) then "Edited" else "Added";
      Ok(action + " on PR " + LongToString(prId) + " in " + Text(repo))
  }

  /** `pushEventFormatter`. */
  function FormatPush(get: string -> Result<Json>): Result<string>
  {
    var repo :- AsString(get("repo.name"));
    var commits :- AsLong(get("payload.distinct_size"));
    Ok("Pushed " + LongToString(commits) + " commits to " + Text(repo))
  }

  /** `releaseEventFormatter`. */
  function FormatRelease(get: string -> Result<Json>): Result<string>
  {
    var repo :- AsString(get("repo.name"));
    var action :- AsString(get("payload.action"));
    var release :- AsString(get("payload.release.name"));
    Ok(Text(action) + " a release " + Text(release) + " in " + Text(repo))
  }

  const PendingTierChange: string := "pending_tier_change"

  /** `sponsorshipEventFormatter`: `action.equals(...)` fails on a null action. */
  function FormatSponsorship(get: string -> Result<Json>): Result<string>
  {
    var action :- AsString(get("payload.action"));
    var sponsorable :- AsString(get("payload.sponsorable.login"));
    if action.None? then Err(NullPointer)
    else if action.value == PendingTierChange then
      Ok("requested a tier change for sponsorship to sponsorable " + Text(sponsorable))
    else Ok(action.value + " a sponsorship for " + Text(sponsorable))
  }

  /** `watchEventFormatter`. */
  function FormatWatch(get: string -> Result<Json>): Result<string>
  {
    var repo :- AsString(get("repo.name"));
    Ok("starred " + Text(repo))
  }

  /** `deleteEventFormatted`. */
  function FormatDelete(get: string -> Result<Json>): Result<string>
  {
    var refType :- AsString(get("payload.ref_type"));
    var ref :- AsString(get("payload.ref"));
    var repo :- AsString(get("repo.name"));
    Ok("Deleted " + Text(refType) + " " + Text(ref) + " from " + Text(repo))
  }

  /** `createEventFormatter`. */
  function FormatCreate(get: string -> Result<Json>): Result<string>
  {
    var repo :- AsString(get("repo.name"));
    var ref :- AsString(get("payload.ref"));
    var refType :- AsString(get("payload.ref_type"));
    if ref.None? then Ok("Created " + Text(refType) + " " + Text(repo))
    else Ok("Created " + Text(refType) + " " + UpperText(ref) + " in " + Text(repo))
  }

  /** `issuesEventFormatter`. */
  function FormatIssues(get: string -> Result<Json>): Result<string>
  {
    var repo :- AsString(get("repo.name"));
    var action :- AsString(get("payload.action"));
    var issueNumber :- AsLong(get("payload.issue.number"));
    var issue :- AsString(get("payload.issue.title"));
    Ok(Text(action) + " issue #" + LongToString(issueNumber) + " '" + Text(issue) + "' in " + Text(repo))
  }

  /** One wiki page of a gollum event: the element cast to a map, then its two strings. */
  function PageLine(page: Json, repo: Option<string>): Result<string>
  {
    match page
    case Null => Err(NullPointer)
    case Obj(m) =>
      var action :- AsString(Ok(GetOrNull(m, "action")));
      var pageName :- AsString(Ok(GetOrNull(m, "page_name")));
      Ok(Text(action) + " wiki page \"" + Text(pageName) + "\" in " + Text(repo))
    case _ => Err(ClassCast)
  }

  /** The body of the page loop of `gollumEventFormatter`, for a fixed repository. */
  function PageStep(repo: Option<string>): Json -> Result<string>
  {
    page => PageLine(page, repo)
  }

  /** `gollumEventFormatter`: one line per page, joined by newlines. */
  function FormatGollum(get: string -> Result<Json>): Result<string>
  {
    var repo :- AsString(get("repo.name"));
    var pages :- AsList(get("payload.pages"));
    if pages.None? then Err(NullPointer)
    else
      var lines :- Collect(PageStep(repo), pages.value, []);
      Ok(Join(lines, '\n'))
  }

  /** `pullRequestEventFormatter`. */
  function FormatPullRequest(get: string -> Result<Json>): Result<string>
  {
    var repo :- AsString(get("repo.name"));
    var action :- AsString(get("payload.action"));
    var prNumber :- AsLong(get("payload.pull_request.number"));
    var title :- AsString(get("payload.pull_request.title"));
    Ok(Text(action) + " pull request #" + LongToString(prNumber) + " '" + Text(title) + "' in " + Text(repo))
  }

  // ---------------------------------------------------------------------------
  // Dispatch
  // ---------------------------------------------------------------------------

  /** The `case` labels of the `switch` in `formatEvents`, in source order, and the branch each selects. */
  function CaseLabel(t: string): Option<EventType>
  {
    if t == "IssueCommentEvent" then Some(IssueCommentEvent)
    else if t == "CommitCommentEvent" then Some(CommitCommentEvent)
    else if t == "ForkEvent" then Some(ForkEvent)
    else if t == "MemberEvent" then Some(MemberEvent)
    else if t == "PublicEvent" then Some(PublicEvent)
    else if t == "PullRequestReviewEvent" then Some(PullRequestReviewEvent)
    else if t == "PullRequestReviewCommentEvent" then Some(PullRequestReviewCommentEvent)
    else if t == "PushEvent" then Some(PushEvent)
    else if t == "ReleaseEvent" then Some(ReleaseEvent)
    else if t == "SponsorshipEvent" then Some(SponsorEvent)
    else if t == "WatchEvent" then Some(WatchEvent)
    else if t == "DeleteEvent" then Some(DeleteEvent)
    else if t == "CreateEvent" then Some(CreateEvent)
    else if t == "IssuesEvent" then Some(IssuesEvent)
    else if t == "GollumEvent" then Some(GollumEvent)
    else if t == "PullRequestEvent" then Some(PullRequestEvent)
    else None
  }

  /** One event of `formatEvents`: read `type`, then switch on it. */
  function FormatEvent(get: string -> Result<Json>): Result<string>
  {
    var kind :- AsString(get("type"));
    if kind.None? then Err(NullPointer)  // switch on a null string
    else
      match CaseLabel(kind.value)
      case Some(e) => FormatterOf(e, get)
      case None => Err(UnsupportedEventType(kind.value))  // the default branch
  }

  /** The formatter of each event type. */
  function FormatterOf(e: EventType, get: string -> Result<Json>): Result<string>
  {
    match e
    case CommitCommentEvent => FormatCommitComment(get)
    case ForkEvent => FormatFork(get)
    case MemberEvent => FormatMember(get)
    case PublicEvent => FormatPublic(get)
    case PullRequestReviewEvent => FormatPullRequestReview(get)
    case PullRequestReviewCommentEvent => FormatPullRequestReviewComment(get)
    case PushEvent => FormatPush(get)
    case ReleaseEvent => FormatRelease(get)
    case SponsorEvent => FormatSponsorship(get)
    case WatchEvent => FormatWatch(get)
    case IssueCommentEvent => FormatIssueComment(get)
    case DeleteEvent => FormatDelete(get)
    case CreateEvent => FormatCreate(get)
    case IssuesEvent => FormatIssues(get)
    case GollumEvent => FormatGollum(get)
    case PullRequestEvent => FormatPullRequest(get)
  }

  /**
   * The sixteen `case` labels are exactly the type strings of
   * GitHubEventType, and each selects the formatter of its own constant:
   * the switch agrees with `fromEventType`.
   */
  lemma CaseLabelsAreEventTypes(t: string)
    ensures CaseLabel(t) == FromEventType(t)
  {
    FromEventTypeFinds(t);
    if FromEventType(t).Some? {
      CaseLabelOf(FromEventType(t).value);
    } else {
      CaseLabelUnknown(t);
    }
  }

  /** Each constant's type string selects that constant's branch. */
  lemma CaseLabelOf(e: EventType)
    ensures CaseLabel(e.TypeName()) == Some(e)
  {
    if e.CommitCommentEvent? || e.ForkEvent? || e.MemberEvent? || e.PublicEvent? {
      CaseLabelOf1(e);
    } else if e.PullRequestReviewEvent? || e.PullRequestReviewCommentEvent? || e.PushEvent? || e.ReleaseEvent? {
      CaseLabelOf2(e);
    } else if e.SponsorEvent? || e.WatchEvent? || e.IssueCommentEvent? || e.DeleteEvent? {
      CaseLabelOf3(e);
    } else if e.CreateEvent? || e.IssuesEvent? {
      CaseLabelOf4(e);
    } else {
      CaseLabelOf5(e);
    }
  }

  // CaseLabelOf, a group of constants at a time.

  lemma CaseLabelOf1(e: EventType)
    requires e.CommitCommentEvent? || e.ForkEvent? || e.MemberEvent? || e.PublicEvent?
    ensures CaseLabel(e.TypeName()) == Some(e)
  {
    match e {
      case CommitCommentEvent =>
      case ForkEvent =>
      case MemberEvent =>
      case PublicEvent =>
      case PullRequestReviewEvent =>
      case PullRequestReviewCommentEvent =>
      case PushEvent =>
      case ReleaseEvent =>
      case SponsorEvent =>
      case WatchEvent =>
      case IssueCommentEvent =>
      case DeleteEvent =>
      case CreateEvent =>
      case IssuesEvent =>
      case GollumEvent =>
      case PullRequestEvent =>
    }
  }

  lemma CaseLabelOf2(e: EventType)
    requires e.PullRequestReviewEvent? || e.PullRequestReviewCommentEvent? || e.PushEvent? || e.ReleaseEvent?
    ensures CaseLabel(e.TypeName()) == Some(e)
  {
    match e {
      case CommitCommentEvent =>
      case ForkEvent =>
      case MemberEvent =>
      case PublicEvent =>
      case PullRequestReviewEvent =>
      case PullRequestReviewCommentEvent =>
      case PushEvent =>
      case ReleaseEvent =>
      case SponsorEvent =>
      case WatchEvent =>
      case IssueCommentEvent =>
      case DeleteEvent =>
      case CreateEvent =>
      case IssuesEvent =>
      case GollumEvent =>
      case PullRequestEvent =>
    }
  }

  lemma CaseLabelOf3(e: EventType)
    requires e.SponsorEvent? || e.WatchEvent? || e.IssueCommentEvent? || e.DeleteEvent?
    ensures CaseLabel(e.TypeName()) == Some(e)
  {
    match e {
      case CommitCommentEvent =>
      case ForkEvent =>
      case MemberEvent =>
      case PublicEvent =>
      case PullRequestReviewEvent =>
      case PullRequestReviewCommentEvent =>
      case PushEvent =>
      case ReleaseEvent =>
      case SponsorEvent =>
      case WatchEvent =>
      case IssueCommentEvent =>
      case DeleteEvent =>
      case CreateEvent =>
      case IssuesEvent =>
      case GollumEvent =>
      case PullRequestEvent =>
    }
  }

  lemma CaseLabelOf4(e: EventType)
    requires e.CreateEvent? || e.IssuesEvent?
    ensures CaseLabel(e.TypeName()) == Some(e)
  {
    match e {
      case CommitCommentEvent =>
      case ForkEvent =>
      case MemberEvent =>
      case PublicEvent =>
      case PullRequestReviewEvent =>
      case PullRequestReviewCommentEvent =>
      case PushEvent =>
      case ReleaseEvent =>
      case SponsorEvent =>
      case WatchEvent =>
      case IssueCommentEvent =>
      case DeleteEvent =>
      case CreateEvent => assert CaseLabel("CreateEvent") == Some(CreateEvent);
      case IssuesEvent => assert CaseLabel("IssuesEvent") == Some(IssuesEvent);
      case GollumEvent =>
      case PullRequestEvent =>
    }
  }

  lemma CaseLabelOf5(e: EventType)
    requires e.GollumEvent? || e.PullRequestEvent?
    ensures CaseLabel(e.TypeName()) == Some(e)
  {
    match e {
      case CommitCommentEvent =>
      case ForkEvent =>
      case MemberEvent =>
      case PublicEvent =>
      case PullRequestReviewEvent =>
      case PullRequestReviewCommentEvent =>
      case PushEvent =>
      case ReleaseEvent =>
      case SponsorEvent =>
      case WatchEvent =>
      case IssueCommentEvent =>
      case DeleteEvent =>
      case CreateEvent =>
      case IssuesEvent =>
      case GollumEvent => assert CaseLabel("GollumEvent") == Some(GollumEvent);
      case PullRequestEvent => assert CaseLabel("PullRequestEvent") == Some(PullRequestEvent);
    }
  }

  /** A string that is no constant's type string reaches the default branch. */
  lemma CaseLabelUnknown(t: string)
    requires forall e: EventType :: e.TypeName() != t
    ensures CaseLabel(t) == None
  {
    assert t != CommitCommentEvent.TypeName() && t != ForkEvent.TypeName()
      && t != MemberEvent.TypeName() && t != PublicEvent.TypeName()
      && t != PullRequestReviewEvent.TypeName() && t != PullRequestReviewCommentEvent.TypeName()
      && t != PushEvent.TypeName() && t != ReleaseEvent.TypeName()
      && t != SponsorEvent.TypeName() && t != WatchEvent.TypeName()
      && t != IssueCommentEvent.TypeName() && t != DeleteEvent.TypeName()
      && t != CreateEvent.TypeName() && t != IssuesEvent.TypeName()
      && t != GollumEvent.TypeName() && t != PullRequestEvent.TypeName();
  }

  /**
   * A handled type goes to the formatter of its constant; any other type
   * string is rejected as unsupported; a null type fails the switch.
   */
  lemma DispatchFollowsEventTypes(get: string -> Result<Json>, t: string)
    requires get("type") == Ok(Str(t))
    ensures FromEventType(t).Some? ==> FormatEvent(get) == FormatterOf(FromEventType(t).value, get)
    ensures FromEventType(t).None? ==> FormatEvent(get) == Err(UnsupportedEventType(t))
    ensures get("type") == Ok(Null) ==> FormatEvent(get) == Err(NullPointer)
  {
    CaseLabelsAreEventTypes(t);
  }

  /** A `GollumEvent` goes to the gollum formatter. */
  lemma GollumDispatch(get: string -> Result<Json>)
    requires get("type") == Ok(Str("GollumEvent"))
    ensures FormatEvent(get) == FormatGollum(get)
  {
    assert "GollumEvent" == GollumEvent.TypeName();
    DispatchTo(get, GollumEvent);
    GollumFormatter(get, GollumEvent);
  }

  /** The formatter of the gollum constant is the gollum formatter. */
  lemma GollumFormatter(get: string -> Result<Json>, e: EventType)
    requires e.GollumEvent?
    ensures FormatterOf(e, get) == FormatGollum(get)
  {
  }

  /** An event whose type is a constant's type string goes to that constant's formatter. */
  lemma DispatchTo(get: string -> Result<Json>, e: EventType)
    requires get("type") == Ok(Str(e.TypeName()))
    ensures FormatEvent(get) == FormatterOf(e, get)
  {
    FromEventTypeRoundTrip(e);
    DispatchFollowsEventTypes(get, e.TypeName());
  }

  /** The body of the loop of `formatEvents`: format one reader's event. */
  function ReaderLine(rd: Reader.JsonReader): Result<string>
  {
    FormatEvent(ReaderLookup(rd))
  }

  /** `formatEvents(readers)`. */
  method FormatEvents(readers: seq<Reader.JsonReader>) returns (r: Result<seq<string>>)
    ensures r == Collect(ReaderLine, readers, [])
  {
    var formatted: seq<string> := [];
    for i := 0 to |readers|
      invariant Collect(ReaderLine, readers[i..], formatted) == Collect(ReaderLine, readers, [])
    {
      assert readers[i..][0] == readers[i] && readers[i..][1..] == readers[i + 1..];
      var line := FormatEventMethod(readers[i]);
      if line.Err? {
        return Err(line.error);
      }
      formatted := formatted + [line.value];
    }
    assert readers[|readers|..] == [];
    r := Ok(formatted);
  }

  /** One step of the `formatEvents` loop, with the gollum formatter run as its loop. */
  method FormatEventMethod(rd: Reader.JsonReader) returns (r: Result<string>)
    ensures r == FormatEvent(ReaderLookup(rd))
  {
    var kind := rd.GetValueForKey("type");
    if kind == Ok(Str("GollumEvent")) {
      GollumDispatch(ReaderLookup(rd));
      r := GollumEventMethod(rd);
    } else {
      r := FormatEvent(ReaderLookup(rd));
    }
  }

  /** `gollumEventFormatter`, as the Java loop runs it. */
  method GollumEventMethod(rd: Reader.JsonReader) returns (r: Result<string>)
    ensures r == FormatGollum(ReaderLookup(rd))
  {
    var repoValue := rd.GetValueForKey("repo.name");
    var repo := AsString(repoValue);
    if repo.Err? {
      return Err(repo.error);
    }
    var pagesValue := rd.GetValueForKey("payload.pages");
    var pages := AsList(pagesValue);
    if pages.Err? {
      return Err(pages.error);
    }
    if pages.value.None? {
      return Err(NullPointer);
    }
    var list := pages.value.value;
    var pageEvents: seq<string> := [];
    for i := 0 to |list|
      invariant Collect(PageStep(repo.value), list[i..], pageEvents) == Collect(PageStep(repo.value), list, [])
    {
      assert list[i..][0] == list[i] && list[i..][1..] == list[i + 1..];
      var line := PageLine(list[i], repo.value);
      if line.Err? {
        return Err(line.error);
      }
      pageEvents := pageEvents + [line.value];
    }
    assert list[|list|..] == [];
    r := Ok(Join(pageEvents, '\n'));
  }
}
