/** The admin page listing every topic in an editor: its guard on the
    signed-in user, the id order it puts fetched topics in, and what a
    failed fetch leaves behind. */
module EditTopicsPage {
  import opened Wrappers
  import opened GraphqlTypes
  import Lex
  import EditTopic

  /** A topic as the page's query returns it. */
  datatype Topic = Topic(
    id: string,
    title: Option<string>,
    imageType: Option<ImageType>,
    image: Option<string>)

  /** The signed-in user as the page reads it; the role list may be missing. */
  datatype AuthUser = AuthUser(roles: Option<seq<UserRole>>)

  // ---------------------------------------------------------------------------
  // Ordering by id
  // ---------------------------------------------------------------------------

  /** The sort comparator: `a < b ? -1 : a > b ? 1 : 0` on the two ids. */
  function CompareIds(a: string, b: string): (c: int)
    ensures c == 0 <==> a == b
    ensures c < 0 <==> Lex.Less(a, b)
    ensures c > 0 <==> Lex.Less(b, a)
    ensures -1 <= c <= 1
  {
    Lex.LessIrreflexive(a);
    Lex.LessAsymmetric(a, b);
    Lex.LessTrichotomous(a, b);
    if Lex.Less(a, b) then -1 else if Lex.Less(b, a) then 1 else 0
  }

  /** Swapping the arguments negates the comparison. */
  lemma CompareIdsAntisymmetric(a: string, b: string)
    ensures CompareIds(a, b) == -CompareIds(b, a)
  {
  }

  /** "Not after" in id order is transitive. */
  lemma CompareIdsTransitive(a: string, b: string, c: string)
    requires CompareIds(a, b) <= 0 && CompareIds(b, c) <= 0
    ensures CompareIds(a, c) <= 0
  {
    if a != b && b != c {
      Lex.LessTransitive(a, b, c);
    }
  }

  /** No topic is followed by one with a smaller id. */
  predicate IdsAscending(ts: seq<Topic>) {
    forall i, j :: 0 <= i < j < |ts| ==> CompareIds(ts[i].id, ts[j].id) <= 0
  }

  /** Places `t` into an id-ascending list, before the first topic whose id
      is not smaller. */
  function InsertById(t: Topic, ts: seq<Topic>): (out: seq<Topic>)
    requires IdsAscending(ts)
    ensures IdsAscending(out)
    ensures multiset(out) == multiset(ts) + multiset{t}
    ensures out[0] == t || (|ts| > 0 && out[0] == ts[0])
    decreases |ts|
  {
    if |ts| == 0 then [t]
    else if CompareIds(t.id, ts[0].id) <= 0 then
      assert forall j :: 0 <= j < |ts| ==> CompareIds(t.id, ts[j].id) <= 0 by {
        forall j | 0 <= j < |ts| ensures CompareIds(t.id, ts[j].id) <= 0 {
          CompareIdsTransitive(t.id, ts[0].id, ts[j].id);
        }
      }
      [t] + ts
    else
      assert ts == [ts[0]] + ts[1..];
      var rest := InsertById(t, ts[1..]);
      CompareIdsAntisymmetric(t.id, ts[0].id);
      assert forall j :: 0 <= j < |rest| ==> CompareIds(ts[0].id, rest[j].id) <= 0 by {
        forall j | 0 <= j < |rest| ensures CompareIds(ts[0].id, rest[j].id) <= 0 {
          CompareIdsTransitive(ts[0].id, rest[0].id, rest[j].id);
        }
      }
      [ts[0]] + rest
  }

  /** The fetched topics as the page keeps them. */
  function SortById(ts: seq<Topic>): (sorted: seq<Topic>)
    ensures IdsAscending(sorted)
    ensures multiset(sorted) == multiset(ts)
    decreases |ts|
  {
    if |ts| == 0 then []
    else
      assert ts == [ts[0]] + ts[1..];
      InsertById(ts[0], SortById(ts[1..]))
  }

  /** Ids compare as strings, not numbers: "10" comes before "9". */
  lemma StringOrderOfIds(a: Topic, b: Topic)
    requires a.id == "9" && b.id == "10"
    ensures SortById([a, b]) == [b, a]
  {
    assert Lex.Less("10", "9");
    assert [a, b][1..] == [b];
  }

  // ---------------------------------------------------------------------------
  // Fetching
  // ---------------------------------------------------------------------------

  /** The answer to the topics query. */
  datatype FetchResult = FetchError(message: string) | FetchOk(topics: seq<Topic>)

  /** The topic list after the query answers, and the error toast, if any. */
  datatype Fetched = Fetched(topics: seq<Topic>, errorToast: Option<string>)

  function OnTopicsFetched(current: seq<Topic>, result: FetchResult): (next: Fetched)
    ensures result.FetchError? ==> next.topics == current && next.errorToast == Some(result.message)
    ensures result.FetchOk? ==>
      && next.errorToast == None
      && multiset(next.topics) == multiset(result.topics)
      && IdsAscending(next.topics)
  {
    match result
    case FetchError(msg) => Fetched(current, Some(msg))
    case FetchOk(fetched) => Fetched(SortById(fetched), None)
  }

  /** The page starts with no topics, and a failed fetch leaves it so. */
  lemma FailedFetchShowsNoTopics(message: string)
    ensures OnTopicsFetched([], FetchError(message)).topics == []
  {
  }

  // ---------------------------------------------------------------------------
  // Rendering
  // ---------------------------------------------------------------------------

  datatype View = NotAuthenticated | NotAuthorized | TopicEditors(editors: seq<EditTopic.Editor>)

  /** The fields of a fetched topic handed to its editor. */
  function AsPartial(t: Topic): EditTopic.PartialTopic {
    EditTopic.PartialTopic(Some(t.id), t.title, t.imageType, t.image)
  }

  /** The page: no user first, then no admin role, then one editor per topic. */
  function Render(user: Option<AuthUser>, topics: seq<Topic>): (view: View)
    ensures user.None? ==> view == NotAuthenticated
    ensures view == NotAuthorized <==>
      user.Some? && (user.value.roles.None? || Admin !in user.value.roles.value)
    ensures view.TopicEditors? ==>
      && |view.editors| == |topics|
      && forall i :: 0 <= i < |topics| ==>
           view.editors[i].topic == AsPartial(topics[i]) && EditTopic.Synced(view.editors[i])
    ensures view.TopicEditors? ==>
      forall i :: 0 <= i < |topics| ==> view.editors[i] == EditTopic.InitEditor(AsPartial(topics[i]))
  {
    if user.None? then NotAuthenticated
    else if user.value.roles.None? || Admin !in user.value.roles.value then NotAuthorized
    else TopicEditors(seq(|topics|, i requires 0 <= i < |topics| => EditTopic.InitEditor(AsPartial(topics[i]))))
  }

  /** An admin sees the editors; nobody else does. */
  lemma EditorsOnlyForAdmins(user: Option<AuthUser>, topics: seq<Topic>)
    ensures Render(user, topics).TopicEditors? <==>
      user.Some? && user.value.roles.Some? && Admin in user.value.roles.value
  {
  }
}
