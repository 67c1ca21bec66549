/** The resource card grid: the newest-first order of the cards, the
    15-character tag truncation and its tooltip, the action buttons chosen by
    the current path, the cover, and the navigation targets. */
module ResourceCards {
  import opened Wrappers
  import opened GraphqlTypes
  import opened Feedback
  import EditTopic

  /** The fields of a resource's owner and topic that a card shows. */
  datatype Owner = Owner(username: string)
  datatype CardTopic = CardTopic(slug: string, image: string, imageType: ImageType)

  /** A resource as the grid reads it. `createdDate` stands for the
      creation timestamp, compared by the ordering of the integers. */
  datatype Resource = Resource(
    id: string,
    title: string,
    slug: string,
    description: string,
    createdDate: int,
    published: bool,
    verified: bool,
    user: Owner,
    topic: CardTopic)

  // ---------------------------------------------------------------------------
  // Newest first
  // ---------------------------------------------------------------------------

  /** No resource is followed by a strictly newer one. */
  predicate NewestFirst(rs: seq<Resource>) {
    forall i, j :: 0 <= i < j < |rs| ==> rs[i].createdDate >= rs[j].createdDate
  }

  /** Places `r` into a newest-first list, before the first resource it is
      strictly newer than. Among equal dates the comparator `a > b ? -1 : 1`
      asks for both orders, so putting `r` after them is this model's own
      choice. */
  function InsertByDate(r: Resource, rs: seq<Resource>): (out: seq<Resource>)
    requires NewestFirst(rs)
    ensures NewestFirst(out)
    ensures multiset(out) == multiset(rs) + multiset{r}
    ensures out[0] == r || (|rs| > 0 && out[0] == rs[0])
    decreases |rs|
  {
    if |rs| == 0 || r.createdDate > rs[0].createdDate then [r] + rs
    else
      assert rs == [rs[0]] + rs[1..];
      [rs[0]] + InsertByDate(r, rs[1..])
  }

  /** The order the cards are shown in. */
  function SortNewestFirst(rs: seq<Resource>): (sorted: seq<Resource>)
    ensures NewestFirst(sorted)
    ensures multiset(sorted) == multiset(rs)
    decreases |rs|
  {
    if |rs| == 0 then []
    else
      assert rs == [rs[0]] + rs[1..];
      InsertByDate(rs[0], SortNewestFirst(rs[1..]))
  }

  // ---------------------------------------------------------------------------
  // Tags
  // ---------------------------------------------------------------------------

  const TruncatedLength := 15
  const Ellipsis := "..."

  /** The branch that both shortens a tag's text and wraps the tag in a
      tooltip: the value is longer than 15 characters. */
  predicate IsTruncated(value: string) {
    |value| > TruncatedLength
  }

  /** A tag's text: short values unchanged, long ones cut to their first 14
      characters followed by an ellipsis. */
  function Truncate(value: string): (text: string)
    ensures !IsTruncated(value) ==> text == value
    ensures IsTruncated(value) ==>
      && |text| == TruncatedLength + 2
      && text[..TruncatedLength - 1] == value[..TruncatedLength - 1]
      && text[TruncatedLength - 1..] == Ellipsis
    ensures |text| <= TruncatedLength + 2
  {
    if IsTruncated(value) then value[..TruncatedLength - 1] + Ellipsis else value
  }

  /** Truncating twice is truncating once. */
  lemma TruncateIdempotent(value: string)
    ensures Truncate(Truncate(value)) == Truncate(value)
  {
    if IsTruncated(value) {
      var text := Truncate(value);
      assert text[..TruncatedLength - 1] + Ellipsis == text;
    }
  }

  /** Exactly the short values and the 17-character values already ending
      in the ellipsis are left as they are. */
  lemma TruncateFixedPoints(value: string)
    ensures Truncate(value) == value <==>
      !IsTruncated(value) || (|value| == TruncatedLength + 2 && value[TruncatedLength - 1..] == Ellipsis)
  {
    if |value| == TruncatedLength + 2 && value[TruncatedLength - 1..] == Ellipsis {
      assert value[..TruncatedLength - 1] + value[TruncatedLength - 1..] == value;
    }
  }

  /** "Truncation" lengthens a 16-character value and leaves a 17-character
      one at its length; only longer values get shorter. */
  lemma TruncateLength(value: string)
    ensures |value| == TruncatedLength + 1 ==> |Truncate(value)| == |value| + 1
    ensures |value| == TruncatedLength + 2 ==> |Truncate(value)| == |value|
    ensures |value| > TruncatedLength + 2 ==> |Truncate(value)| < |value|
  {
  }

  /** A rendered tag: its text, the tooltip wrapped around it, if any, and
      the path a click on it leads to. */
  datatype Tag = Tag(text: string, tooltip: Option<string>, target: string)

  function RenderTag(value: string, target: string): (tag: Tag)
    ensures tag.tooltip.Some? <==> IsTruncated(value)
    ensures tag.tooltip.Some? ==> tag.tooltip.value == value && |tag.text| == TruncatedLength + 2 && tag.text[..TruncatedLength - 1] == value[..TruncatedLength - 1]
    ensures tag.tooltip.None? ==> tag.text == value
    ensures tag.text == Truncate(value)
    ensures tag.target == target
  {
    Tag(Truncate(value), if IsTruncated(value) then Some(value) else None, target)
  }

  // ---------------------------------------------------------------------------
  // Navigation
  // ---------------------------------------------------------------------------

  const LearnPrefix := "/learn/"
  const TopicsPrefix := "/topics/"
  const ResourcesSuffix := "/resources"

  /** Where a card leads. */
  function ResourceTarget(slug: string): (path: string)
    ensures |path| == |LearnPrefix| + |slug|
    ensures path[..|LearnPrefix|] == LearnPrefix && path[|LearnPrefix|..] == slug
  {
    LearnPrefix + slug
  }

  /** Where a topic tag leads. */
  function TopicTarget(slug: string): (path: string)
    ensures |path| == |TopicsPrefix| + |slug|
    ensures path[..|TopicsPrefix|] == TopicsPrefix && path[|TopicsPrefix|..] == slug
  {
    TopicsPrefix + slug
  }

  /** Where a user tag leads. */
  function UserResourcesTarget(username: string): (path: string)
    ensures |path| == |username| + 1 + |ResourcesSuffix|
    ensures path[0] == '/' && path[1..|username| + 1] == username
    ensures path[|username| + 1..] == ResourcesSuffix
  {
    "/" + username + ResourcesSuffix
  }

  /** The slug a card path names, if it is one. */
  function ResourceSlugOf(path: string): Option<string> {
    if |path| >= |LearnPrefix| && path[..|LearnPrefix|] == LearnPrefix then Some(path[|LearnPrefix|..]) else None
  }

  /** The slug a topic path names, if it is one. */
  function TopicSlugOf(path: string): Option<string> {
    if |path| >= |TopicsPrefix| && path[..|TopicsPrefix|] == TopicsPrefix then Some(path[|TopicsPrefix|..]) else None
  }

  /** The username a user-tag path names, if it is one. */
  function UsernameOf(path: string): Option<string> {
    if |path| >= 1 + |ResourcesSuffix| && path[0] == '/' && path[|path| - |ResourcesSuffix|..] == ResourcesSuffix
    then Some(path[1..|path| - |ResourcesSuffix|])
    else None
  }

  /** The card, topic-tag and user-tag paths can be read back, so distinct
      slugs and usernames lead to distinct places. */
  lemma TargetsRoundTrip(slug: string, username: string)
    ensures ResourceSlugOf(ResourceTarget(slug)) == Some(slug)
    ensures TopicSlugOf(TopicTarget(slug)) == Some(slug)
    ensures UsernameOf(UserResourcesTarget(username)) == Some(username)
  {
  }

  /** A user named `topics` and a topic named `resources` share a path. */
  lemma UserAndTopicTargetsCollide()
    ensures UserResourcesTarget("topics") == TopicTarget("resources")
  {
  }

  /** Where a click lands. Tag clicks stop the event, so the card's own
      navigation does not also happen. */
  datatype Click = OnCard | OnUserTag | OnTopicTag

  // ---------------------------------------------------------------------------
  // Actions
  // ---------------------------------------------------------------------------

  const AdminPath := "/_admin"
  const OwnResourcesPath := "/resources/me"

  datatype ActionKind = TogglePublish | TogglePrimary

  /** An action button: what it toggles, its caption, and whether it is drawn
      as the primary button or as a danger button. */
  datatype Button = Button(kind: ActionKind, caption: string, primary: bool, danger: bool)

  function PublishButton(r: Resource): Button {
    Button(TogglePublish, if r.published then "Unpublish" else "Publish", !r.published, r.published)
  }

  function PrimaryButton(r: Resource): Button {
    Button(TogglePrimary, if r.verified then "Remove as Primary" else "Make Primary", !r.verified, r.verified)
  }

  /** The admin buttons. The extra `Toggle Primary` button pushed for a
      verified resource goes into a local list that is never returned, so it
      has no counterpart here. */
  function AdminActions(r: Resource): (actions: seq<Button>)
    ensures |actions| == 2
    ensures actions[0].kind == TogglePublish && actions[1].kind == TogglePrimary
    ensures actions[0].caption == (if r.published then "Unpublish" else "Publish")
    ensures actions[1].caption == (if r.verified then "Remove as Primary" else "Make Primary")
    ensures actions[0].danger == r.published && actions[0].primary == !r.published
    ensures actions[1].danger == r.verified && actions[1].primary == !r.verified
  {
    [PublishButton(r), PrimaryButton(r)]
  }

  /** The buttons of a card, chosen by the current path: the admin page
      first, then one's own resource list, and no buttons anywhere else. */
  function GetActions(path: string, r: Resource): (actions: seq<Button>)
    ensures path == AdminPath ==>
      && |actions| == 2
      && actions[0].kind == TogglePublish && (actions[0].caption == "Unpublish" <==> r.published)
      && actions[1].kind == TogglePrimary && (actions[1].caption == "Remove as Primary" <==> r.verified)
      && actions[0].danger == r.published && actions[1].danger == r.verified
      && actions == AdminActions(r)
    ensures path == OwnResourcesPath ==>
      && |actions| == 1
      && actions[0].kind == TogglePublish && (actions[0].caption == "Unpublish" <==> r.published)
      && actions == [AdminActions(r)[0]]
    ensures path != AdminPath && path != OwnResourcesPath ==> actions == []
  {
    if path == AdminPath then AdminActions(r)
    else if path == OwnResourcesPath then [PublishButton(r)]
    else []
  }

  /** The publish button is the same on the admin page and on one's own list. */
  lemma PublishButtonSharedByViews(r: Resource)
    ensures GetActions(AdminPath, r)[0] == GetActions(OwnResourcesPath, r)[0]
    ensures |GetActions(AdminPath, r)| == |GetActions(AdminPath, r.(verified := !r.verified))|
  {
  }

  /** What a toggle button does once its mutation answers. */
  function ToggleOutcome(result: MutationResult): (outcome: Outcome)
    ensures outcome.ErrorToast? <==> result.MutationError?
    ensures result.MutationError? ==> outcome.text == result.message
    ensures outcome.Reload? ==> outcome.successToast == Some("Status updated successfully.")
  {
    match result
    case MutationError(msg) => ErrorToast(msg)
    case MutationOk => Reload(Some("Status updated successfully."))
  }

  // ---------------------------------------------------------------------------
  // Cards and the grid
  // ---------------------------------------------------------------------------

  datatype Cover = IconCover(className: string) | ImageCover(src: string)

  /** A card's cover: a device icon drawn from its class name, or an image. */
  function CoverOf(topic: CardTopic): (cover: Cover)
    ensures cover.IconCover? <==> topic.imageType == DevIcon
    ensures cover.IconCover? ==> cover.className == "devicon-" + topic.image
    ensures cover.ImageCover? ==> cover.src == topic.image
  {
    if topic.imageType == DevIcon then IconCover("devicon-" + topic.image) else ImageCover(topic.image)
  }

  /** A card shows the icon that the topic editor previewed for that image. */
  lemma CoverMatchesEditorPreview(slug: string, family: string, version: string)
    ensures CoverOf(CardTopic(slug, EditTopic.ComposeImage(family, version), DevIcon))
            == IconCover(EditTopic.PreviewClass(family, version))
  {
  }

  datatype Card = Card(
    key: string,
    title: string,
    description: string,
    cover: Cover,
    actions: seq<Button>,
    target: string,
    userTag: Tag,
    topicTag: Tag)

  /** One resource's card: keyed by the resource id, leading to the
      resource, with the owner and topic tags and the path's buttons. */
  function RenderCard(path: string, r: Resource): (card: Card)
    ensures card.key == r.id && card.title == r.title && card.description == r.description
    ensures card.cover == CoverOf(r.topic)
    ensures card.actions == GetActions(path, r)
    ensures card.target == LearnPrefix + r.slug
    ensures card.userTag.target == "/" + r.user.username + ResourcesSuffix
    ensures card.topicTag.target == TopicsPrefix + r.topic.slug
    ensures card.userTag.text == Truncate(r.user.username)
    ensures card.userTag.tooltip.Some? <==> IsTruncated(r.user.username)
    ensures card.topicTag.text == Truncate(r.topic.slug)
    ensures card.topicTag.tooltip.Some? <==> IsTruncated(r.topic.slug)
    ensures card.userTag == RenderTag(r.user.username, UserResourcesTarget(r.user.username))
    ensures card.topicTag == RenderTag(r.topic.slug, TopicTarget(r.topic.slug))
  {
    Card(r.id, r.title, r.description, CoverOf(r.topic), GetActions(path, r),
         ResourceTarget(r.slug),
         RenderTag(r.user.username, UserResourcesTarget(r.user.username)),
         RenderTag(r.topic.slug, TopicTarget(r.topic.slug)))
  }

  /** The one path a click on a card pushes. */
  function Navigate(card: Card, click: Click): string {
    match click
    case OnCard => card.target
    case OnUserTag => card.userTag.target
    case OnTopicTag => card.topicTag.target
  }

  /** A click leads to the resource, its owner's list, or its topic. */
  lemma NavigateTargets(path: string, r: Resource)
    ensures Navigate(RenderCard(path, r), OnCard) == LearnPrefix + r.slug
    ensures Navigate(RenderCard(path, r), OnUserTag) == "/" + r.user.username + "/resources"
    ensures Navigate(RenderCard(path, r), OnTopicTag) == TopicsPrefix + r.topic.slug
  {
  }

  /** The grid: the resources in the order they are shown, one card for
      each, and whether the empty placeholder is shown. */
  datatype Grid = Grid(shown: seq<Resource>, cards: seq<Card>, showEmpty: bool)

  function RenderGrid(path: string, resources: seq<Resource>): (grid: Grid)
    ensures multiset(grid.shown) == multiset(resources)
    ensures NewestFirst(grid.shown)
    ensures |grid.cards| == |grid.shown|
    ensures forall i :: 0 <= i < |grid.shown| ==> grid.cards[i] == RenderCard(path, grid.shown[i])
    ensures grid.showEmpty <==> |resources| == 0
  {
    var shown := SortNewestFirst(resources);
    Grid(shown, seq(|shown|, i requires 0 <= i < |shown| => RenderCard(path, shown[i])), |resources| == 0)
  }
}
