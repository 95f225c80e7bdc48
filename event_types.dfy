/**
 * GitHubEventType: the sixteen event kinds the activity feed knows, each
 * with the type string the GitHub API sends, a description and a
 * classification by how definite its action and its ref are; and the
 * reverse lookup from a type string to its constant.
 */
module EventTypes {
  import opened JsonValue

  /** EventRefType. */
  datatype EventRefType =
    | DefiniteActionDefiniteRef
    | DefiniteActionUndefiniteRef
    | UndefiniteActionDefiniteRef

  /** The constants of GitHubEventType, in declaration order. */
  datatype EventType =
    | CommitCommentEvent
    | ForkEvent
    | MemberEvent
    | PublicEvent
    | PullRequestReviewEvent
    | PullRequestReviewCommentEvent
    | PushEvent
    | ReleaseEvent
    | SponsorEvent
    | WatchEvent
    | IssueCommentEvent
    | DeleteEvent
    | CreateEvent
    | IssuesEvent
    | GollumEvent
    | PullRequestEvent
  {
    /** `getEventType()`: the type string of the GitHub API. */
    function TypeName(): string {
      match this
      case CommitCommentEvent => "CommitCommentEvent"
      case ForkEvent => "ForkEvent"
      case MemberEvent => "MemberEvent"
      case PublicEvent => "PublicEvent"
      case PullRequestReviewEvent => "PullRequestReviewEvent"
      case PullRequestReviewCommentEvent => "PullRequestReviewCommentEvent"
      case PushEvent => "PushEvent"
      case ReleaseEvent => "ReleaseEvent"
      case SponsorEvent => "SponsorshipEvent"
      case WatchEvent => "WatchEvent"
      case IssueCommentEvent => "IssueCommentEvent"
      case DeleteEvent => "DeleteEvent"
      case CreateEvent => "CreateEvent"
      case IssuesEvent => "IssuesEvent"
      case GollumEvent => "GollumEvent"
      case PullRequestEvent => "PullRequestEvent"
    }

    /** `getDescription()`. */
    function Description(): string {
      match this
      case CommitCommentEvent => "Commented on a commit"
      case ForkEvent => "Forked a repository"
      case MemberEvent => "Added a collaborator to a repository"
      case PublicEvent => "Made a repository public"
      case PullRequestReviewEvent => "Reviewed a pull request"
      case PullRequestReviewCommentEvent => "Commented on a pull request review"
      case PushEvent => "Pushed to a repository"
      case ReleaseEvent => "Published a release"
      case SponsorEvent => "Sponsored a developer"
      case WatchEvent => "Starred a repository"
      case IssueCommentEvent => "Commented on an issue or pull request"
      case DeleteEvent => "Deleted a branch or tag"
      case CreateEvent => "Created a repository, branch, or tag"
      case IssuesEvent => "Opened or closed an issue"
      case GollumEvent => "Created or updated a wiki page"
      case PullRequestEvent => "Opened, closed, or reopened a pull request"
    }

    /** `getEventRefType()`. */
    function RefType(): EventRefType {
      match this
      case IssueCommentEvent | DeleteEvent | CreateEvent => DefiniteActionUndefiniteRef
      case IssuesEvent | GollumEvent | PullRequestEvent => UndefiniteActionDefiniteRef
      case _ => DefiniteActionDefiniteRef
    }
  }

  /** The constants in the three groups of the declaration. */
  const DefiniteGroup: seq<EventType> := [
    CommitCommentEvent, ForkEvent, MemberEvent, PublicEvent, PullRequestReviewEvent,
    PullRequestReviewCommentEvent, PushEvent, ReleaseEvent, SponsorEvent, WatchEvent
  ]
  const UndefiniteRefGroup: seq<EventType> := [IssueCommentEvent, DeleteEvent, CreateEvent]
  const UndefiniteActionGroup: seq<EventType> := [IssuesEvent, GollumEvent, PullRequestEvent]

  /** `GitHubEventType.values()`. */
  const AllEventTypes: seq<EventType> := DefiniteGroup + UndefiniteRefGroup + UndefiniteActionGroup

  /** `values()` lists every constant exactly once. */
  lemma ValuesComplete(t: EventType)
    ensures t in AllEventTypes
    ensures |AllEventTypes| == 16 && Distinct(AllEventTypes)
  {
  }

  /** No two constants share a type string, so the reverse map is well defined. */
  lemma TypeNamesDistinct(a: EventType, b: EventType)
    ensures a.TypeName() == b.TypeName() ==> a == b
  {
  }

  /** The map that putting the constants `ts` one after the other builds. */
  function MapOf(ts: seq<EventType>): map<string, EventType>
  {
    if ts == [] then map[]
    else MapOf(ts[..|ts| - 1])[ts[|ts| - 1].TypeName() := ts[|ts| - 1]]
  }

  /** Every entry of the map is a constant of `ts` stored under its own type string, and every constant of `ts` is there. */
  lemma {:induction false} MapOfEntries(ts: seq<EventType>)
    ensures forall k :: k in MapOf(ts) ==> MapOf(ts)[k] in ts && MapOf(ts)[k].TypeName() == k
    ensures forall t :: t in ts ==> t.TypeName() in MapOf(ts)
  {
    if ts != [] {
      var init := ts[..|ts| - 1];
      MapOfEntries(init);
      assert ts == init + [ts[|ts| - 1]];
    }
  }

  /** `EVENT_TYPE_MAP` after the static initializer. */
  function EventTypeMap(): map<string, EventType>
  {
    MapOf(AllEventTypes)
  }

  /** The static initializer: put every constant under its type string. */
  method BuildEventTypeMap() returns (m: map<string, EventType>)
    ensures m == EventTypeMap()
  {
    m := map[];
    for i := 0 to |AllEventTypes|
      invariant m == MapOf(AllEventTypes[..i])
    {
      var t := AllEventTypes[i];
      assert AllEventTypes[..i + 1][..i] == AllEventTypes[..i];
      m := m[t.TypeName() := t];
    }
    assert AllEventTypes[..|AllEventTypes|] == AllEventTypes;
  }

  /** `fromEventType(s)`: the constant whose type string is `s`, or null. */
  function FromEventType(s: string): Option<EventType>
  {
    if s in EventTypeMap() then Some(EventTypeMap()[s]) else None
  }

  /** Looking up a constant's own type string gives the constant back. */
  lemma FromEventTypeRoundTrip(t: EventType)
    ensures FromEventType(t.TypeName()) == Some(t)
  {
    ValuesComplete(t);
    MapOfEntries(AllEventTypes);
    var u := EventTypeMap()[t.TypeName()];
    TypeNamesDistinct(u, t);
  }

  /** Lookup finds exactly the type strings of the constants, and what it finds carries that string. */
  lemma FromEventTypeFinds(s: string)
    ensures FromEventType(s).Some? <==> exists t: EventType :: t.TypeName() == s
    ensures FromEventType(s).Some? ==> FromEventType(s).value.TypeName() == s
  {
    MapOfEntries(AllEventTypes);
    if t: EventType :| t.TypeName() == s {
      FromEventTypeRoundTrip(t);
    }
  }

  /** A string that is no constant's type string is not found: `fromEventType` returns null. */
  lemma FromEventTypeUnknown(s: string)
    requires forall t: EventType :: t.TypeName() != s
    ensures FromEventType(s) == None
  {
    FromEventTypeFinds(s);
  }

  /**
   * The classification follows the three groups of the declaration: ten
   * constants have a definite action on a definite ref, three (issue
   * comment, delete, create) a definite action on an undefinite ref, and
   * three (issues, gollum, pull request) an undefinite action on a definite ref.
   */
  lemma CategorySizes(t: EventType)
    ensures t.RefType() == DefiniteActionDefiniteRef <==> t in DefiniteGroup
    ensures t.RefType() == DefiniteActionUndefiniteRef <==> t in UndefiniteRefGroup
    ensures t.RefType() == UndefiniteActionDefiniteRef <==> t in UndefiniteActionGroup
    ensures |DefiniteGroup| == 10 && |UndefiniteRefGroup| == 3 && |UndefiniteActionGroup| == 3
  {
  }
}
