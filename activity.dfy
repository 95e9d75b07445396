/**
 * The activity-feed classifier (`describeActivity`, `getBranchName`): a closed
 * table from an event's type tag and payload to what one feed item shows.
 * Payload fields that the code tests for truthiness are strings, with "" for a
 * missing or empty field.
 */
module Activity {
  import opened Wrappers
  import opened Text
  import RelativeTime

  /** The event types the table knows, and every other tag. */
  datatype EventType =
    | PushEvent | IssuesEvent | IssueCommentEvent | PullRequestEvent
    | PullRequestReviewEvent | CreateEvent | DeleteEvent | ReleaseEvent
    | ForkEvent | WatchEvent | PublicEvent
    | OtherEvent(tag: string)

  /** The tag the hosting API writes for a known event type. */
  function TagName(k: EventType): string
  {
    match k
    case PushEvent => "PushEvent"
    case IssuesEvent => "IssuesEvent"
    case IssueCommentEvent => "IssueCommentEvent"
    case PullRequestEvent => "PullRequestEvent"
    case PullRequestReviewEvent => "PullRequestReviewEvent"
    case CreateEvent => "CreateEvent"
    case DeleteEvent => "DeleteEvent"
    case ReleaseEvent => "ReleaseEvent"
    case ForkEvent => "ForkEvent"
    case WatchEvent => "WatchEvent"
    case PublicEvent => "PublicEvent"
    case OtherEvent(t) => t
  }

  /** The tags that have a row of their own in the table. */
  const KnownTags: set<string> := {
    "PushEvent", "IssuesEvent", "IssueCommentEvent", "PullRequestEvent",
    "PullRequestReviewEvent", "CreateEvent", "DeleteEvent", "ReleaseEvent",
    "ForkEvent", "WatchEvent", "PublicEvent"
  }

  /** The `switch (event?.type)`: a known tag selects its row, anything else
      (a missing type included, given as "") the default row. */
  function Classify(tag: string): (k: EventType)
    ensures TagName(k) == tag
    ensures k.OtherEvent? <==> tag !in KnownTags
  {
    if tag == "PushEvent" then PushEvent
    else if tag == "IssuesEvent" then IssuesEvent
    else if tag == "IssueCommentEvent" then IssueCommentEvent
    else if tag == "PullRequestEvent" then PullRequestEvent
    else if tag == "PullRequestReviewEvent" then PullRequestReviewEvent
    else if tag == "CreateEvent" then CreateEvent
    else if tag == "DeleteEvent" then DeleteEvent
    else if tag == "ReleaseEvent" then ReleaseEvent
    else if tag == "ForkEvent" then ForkEvent
    else if tag == "WatchEvent" then WatchEvent
    else if tag == "PublicEvent" then PublicEvent
    else OtherEvent(tag)
  }

  /** Classifying a type's own tag gives the type back (for the default row,
      any tag outside the table). */
  lemma ClassifyTagName(k: EventType)
    requires k.OtherEvent? ==> k.tag !in KnownTags
    ensures Classify(TagName(k)) == k
  {
  }

  /** The payload fields the table reads. `commits` is the length of
      `payload.commits` when that is an array. */
  datatype Payload = Payload(
    action: string,
    commits: Option<nat>,
    ref: string,
    refType: string,
    issueTitle: string,
    prTitle: string,
    releaseName: string,
    releaseTag: string,
    forkeeFullName: string)

  /** An event of the public feed: its type tag, `repo.name`, payload and `created_at`. */
  datatype Event = Event(tag: string, repoName: string, payload: Payload, createdAt: RelativeTime.Stamp)

  /** What one feed item shows. */
  datatype Descriptor = Descriptor(
    icon: string, leading: string, repoName: string, repoUrl: string,
    trailing: string, meta: string)

  /** `getBranchName(ref)`: the last '/'-segment of a ref, "" for no ref or a
      ref ending in '/'. It is the longest suffix of the ref without a '/'. */
  function GetBranchName(ref: string): (b: string)
    ensures '/' !in b
    ensures IsSuffix(b, ref)
    ensures |b| < |ref| ==> ref[|ref| - |b| - 1] == '/'
  {
    if ref == "" then "" else LastPartIsLongestSuffix(ref, '/'); LastPart(ref, '/')
  }

  /** The link target of a repository: its page on the host, or "" for no name. */
  function RepoUrl(repoName: string): string
  {
    if repoName != "" then "https://github.com/" + repoName else ""
  }

  /** The verb of an issue or pull-request event: the action with its first
      character upper-cased, or `fallback` when there is no action. */
  function ActionLabel(action: string, fallback: string): (r: string)
    ensures action == "" ==> r == fallback
    ensures action != "" ==> |r| == |action| && r[0] == UpperChar(action[0]) && r[1..] == action[1..]
  {
    if action != "" then Capitalize(action) else fallback
  }

  /** The phrase for a push of `count` commits; an empty commit list reads as 1
      but keeps the plural ending. */
  function PushLeading(count: nat): (r: string)
    ensures |r| > 15 && r[..7] == "Pushed " && r[|r| - 4..] == " to "
    ensures count == 1 ==> r == "Pushed 1 commit to "
    ensures count != 1 ==> r[|r| - 5] == 's'
  {
    "Pushed " + NatToString(if count == 0 then 1 else count) + " commit" + (if count == 1 then "" else "s") + " to "
  }

  /** `payload.ref_type || 'item'`. */
  function RefKind(p: Payload): string
  {
    if p.refType != "" then p.refType else "item"
  }

  /** `payload.release?.name || payload.release?.tag_name`. */
  function ReleaseLabel(p: Payload): string
  {
    if p.releaseName != "" then p.releaseName else p.releaseTag
  }

  /** `"<prefix><value>"` when the value is present, "" otherwise. */
  function MetaLine(prefix: string, value: string): string
  {
    if value != "" then prefix + value else ""
  }

  /** `describeActivity(event)`. Every row links the event's repository and has no trailing text. */
  function DescribeActivity(e: Event): (d: Descriptor)
    ensures d.repoName == e.repoName
    ensures d.repoUrl == (if e.repoName != "" then "https://github.com/" + e.repoName else "")
    ensures d.trailing == ""
  {
    var repoName := e.repoName;
    var url := RepoUrl(repoName);
    var p := e.payload;
    match Classify(e.tag)
    case PushEvent =>
      Descriptor("fa-solid fa-code-commit", PushLeading(p.commits.GetOr(0)), repoName, url, "",
                 MetaLine("branch ", GetBranchName(p.ref)))
    case IssuesEvent =>
      Descriptor("fa-regular fa-circle-dot", ActionLabel(p.action, "Updated") + " issue in ", repoName, url, "",
                 MetaLine("issue: ", p.issueTitle))
    case IssueCommentEvent =>
      Descriptor("fa-regular fa-comment-dots", ActionLabel(p.action, "Commented on") + " issue in ", repoName, url, "",
                 MetaLine("issue: ", p.issueTitle))
    case PullRequestEvent =>
      Descriptor("fa-solid fa-code-pull-request", ActionLabel(p.action, "Updated") + " pull request in ", repoName, url, "",
                 MetaLine("PR: ", p.prTitle))
    case PullRequestReviewEvent =>
      Descriptor("fa-solid fa-code-pull-request", "Reviewed pull request in ", repoName, url, "",
                 MetaLine("PR: ", p.prTitle))
    case CreateEvent =>
      Descriptor("fa-solid fa-plus", "Created " + RefKind(p) + " in ", repoName, url, "",
                 MetaLine(RefKind(p) + ": ", p.ref))
    case DeleteEvent =>
      Descriptor("fa-solid fa-trash", "Deleted " + RefKind(p) + " in ", repoName, url, "",
                 MetaLine(RefKind(p) + ": ", p.ref))
    case ReleaseEvent =>
      Descriptor("fa-solid fa-tag", "Published a release in ", repoName, url, "",
                 MetaLine("release: ", ReleaseLabel(p)))
    case ForkEvent =>
      Descriptor("fa-solid fa-code-fork", "Forked ", repoName, url, "",
                 MetaLine("to ", p.forkeeFullName))
    case WatchEvent =>
      Descriptor("fa-regular fa-star", "Starred ", repoName, url, "", "")
    case PublicEvent =>
      Descriptor("fa-solid fa-unlock", "Open sourced ", repoName, url, "", "")
    case OtherEvent(_) =>
      Descriptor("fa-regular fa-circle", "Updated ", repoName, url, "", "")
  }

  /** The commit phrase of a push: singular only for exactly one commit, and an
      empty or missing commit list reads "Pushed 1 commits to ". */
  lemma PushPhrase(count: nat)
    ensures count == 1 ==> PushLeading(count) == "Pushed 1 commit to "
    ensures count == 0 ==> PushLeading(count) == "Pushed 1 commits to "
    ensures count >= 2 ==> PushLeading(count) == "Pushed " + NatToString(count) + " commits to "
  {
    assert NatToString(1) == "1";
  }

  /** A push shows its commit phrase and, as meta, "branch " followed by the
      longest '/'-free suffix of its ref, or nothing when that suffix is empty. */
  lemma PushDescriptor(e: Event)
    requires Classify(e.tag) == PushEvent
    ensures var d := DescribeActivity(e);
            var b := GetBranchName(e.payload.ref);
            && d.icon == "fa-solid fa-code-commit"
            && d.leading == PushLeading(if e.payload.commits.Some? then e.payload.commits.value else 0)
            && (b == "" ==> d.meta == "")
            && (b != "" ==> d.meta == "branch " + b)
            && (d.meta == "" <==> e.payload.ref == "" || e.payload.ref[|e.payload.ref| - 1] == '/')
  {
    var r := e.payload.ref;
    var b := GetBranchName(r);
    if r != "" && b == "" {
      assert r[|r| - 1] == '/';
    }
    if r != "" && r[|r| - 1] == '/' {
      assert b == "";
    }
  }

  /** Issue, comment and pull-request rows start with the capitalised action;
      without an action they say "Updated", "Commented on" and "Updated". */
  lemma ActionRows(e: Event)
    ensures var d := DescribeActivity(e);
            var a := e.payload.action;
            && (Classify(e.tag) == IssuesEvent ==>
                  d.leading == (if a == "" then "Updated" else Capitalize(a)) + " issue in ")
            && (Classify(e.tag) == IssueCommentEvent ==>
                  d.leading == (if a == "" then "Commented on" else Capitalize(a)) + " issue in ")
            && (Classify(e.tag) == PullRequestEvent ==>
                  d.leading == (if a == "" then "Updated" else Capitalize(a)) + " pull request in ")
  {
  }

  /** An unrecognised tag, a missing one included, gets the generic row. */
  lemma DefaultRow(e: Event)
    requires e.tag !in KnownTags
    ensures var d := DescribeActivity(e);
            d.icon == "fa-regular fa-circle" && d.leading == "Updated " && d.meta == ""
  {
  }

  /** Every leading text ends in a space, so the repository name that follows
      it is never run together with it. */
  lemma LeadingEndsInSpace(e: Event)
    ensures var d := DescribeActivity(e);
            |d.leading| > 0 && d.leading[|d.leading| - 1] == ' '
  {
  }

  /** The fixed rows (star, made public, default) never carry a meta line, and
      every other row has one exactly when its payload field is present. */
  lemma MetaPresence(e: Event)
    ensures var d := DescribeActivity(e);
            var p := e.payload;
            match Classify(e.tag)
            case IssuesEvent => d.meta != "" <==> p.issueTitle != ""
            case IssueCommentEvent => d.meta != "" <==> p.issueTitle != ""
            case PullRequestEvent => d.meta != "" <==> p.prTitle != ""
            case PullRequestReviewEvent => d.meta != "" <==> p.prTitle != ""
            case CreateEvent => d.meta != "" <==> p.ref != ""
            case DeleteEvent => d.meta != "" <==> p.ref != ""
            case ReleaseEvent => d.meta != "" <==> p.releaseName != "" || p.releaseTag != ""
            case ForkEvent => d.meta != "" <==> p.forkeeFullName != ""
            case PushEvent => d.meta != "" <==> GetBranchName(p.ref) != ""
            case _ => d.meta == ""
  {
  }

  /** The branch of "refs/heads/main" is "main". */
  lemma MainBranch()
    ensures GetBranchName("refs/heads/main") == "main"
  {
    var r := "refs/heads/main";
    var b := GetBranchName(r);
    assert r[10] == '/';
    assert forall i :: 11 <= i < 15 ==> r[i] != '/';
    assert |b| == 4;
    assert b == r[11..];
  }

  /** A push of three commits to "refs/heads/main". */
  lemma PushExample(e: Event)
    requires e.tag == "PushEvent" && e.payload.commits == Some(3) && e.payload.ref == "refs/heads/main"
    ensures DescribeActivity(e).leading == "Pushed 3 commits to "
    ensures DescribeActivity(e).meta == "branch main"
  {
    ClassifyTagName(PushEvent);
    PushDescriptor(e);
    var b := GetBranchName(e.payload.ref);
    MainBranch();
    assert b == "main";
    MainBranchMeta();
    ThreeCommits();
    assert e.payload.commits.value == 3;
  }

  /** The meta line of a push to "main". Kept apart from `PushExample`, whose
      context makes the literal comparison costly. */
  lemma MainBranchMeta()
    ensures "branch " + "main" == "branch main"
  {
  }

  /** The phrase for three commits. */
  lemma ThreeCommits()
    ensures PushLeading(3) == "Pushed 3 commits to "
  {
    assert NatToString(3) == "3";
  }
}
