/** The topic editor form: the composite image string `family-version`, its
    parsing and re-composition, the icon-version lookup in the icon catalog,
    the editor's state across user events, and the outcome of a submit. */
module EditTopic {
  import opened Wrappers
  import opened GraphqlTypes
  import opened Feedback

  /** The delimiter between icon family and icon version. */
  const Delimiter := '-'

  // ---------------------------------------------------------------------------
  // JavaScript's String.prototype.split and Array.prototype.join on one char
  // ---------------------------------------------------------------------------

  /** How many times `d` occurs in `s`. */
  function Occurrences(s: string, d: char): nat
    decreases |s|
  {
    if |s| == 0 then 0 else (if s[0] == d then 1 else 0) + Occurrences(s[1..], d)
  }

  lemma {:induction false} OccurrencesAppend(a: string, b: string, d: char)
    ensures Occurrences(a + b, d) == Occurrences(a, d) + Occurrences(b, d)
    decreases |a|
  {
    if |a| > 0 {
      assert (a + b)[0] == a[0] && (a + b)[1..] == a[1..] + b;
      OccurrencesAppend(a[1..], b, d);
      assert Occurrences(a + b, d) == (if a[0] == d then 1 else 0) + Occurrences(a[1..] + b, d);
    } else {
      assert a + b == b;
    }
  }

  lemma {:induction false} OccurrencesAbsent(s: string, d: char)
    ensures d !in s ==> Occurrences(s, d) == 0
    decreases |s|
  {
    if |s| > 0 {
      OccurrencesAbsent(s[1..], d);
    }
  }

  /** `parts.join(d)`; the empty array joins to the empty string. Joining
      `d`-free pieces puts exactly one `d` between each two of them. */
  function Join(parts: seq<string>, d: char): (s: string)
    ensures |parts| == 0 ==> s == ""
    ensures |parts| > 0 ==> |s| >= |parts[0]| && s[..|parts[0]|] == parts[0]
    ensures |parts| > 1 ==> |s| > |parts[0]| && s[|parts[0]|] == d && s[|parts[0]| + 1..] == Join(parts[1..], d)
    ensures |parts| > 0 && (forall i :: 0 <= i < |parts| ==> d !in parts[i]) ==>
      Occurrences(s, d) == |parts| - 1
    decreases |parts|
  {
    if |parts| == 0 then ""
    else if |parts| == 1 then
      OccurrencesAbsent(parts[0], d);
      parts[0]
    else
      var rest := Join(parts[1..], d);
      OccurrencesAbsent(parts[0], d);
      OccurrencesAppend(parts[0] + [d], rest, d);
      OccurrencesAppend(parts[0], [d], d);
      assert forall i :: 0 <= i < |parts| - 1 ==> parts[1..][i] == parts[i + 1];
      parts[0] + [d] + rest
  }

  /** Splitting the join of non-empty, `d`-free pieces gives the pieces back. */
  lemma {:induction false} SplitJoinRoundTrip(parts: seq<string>, d: char)
    requires |parts| >= 1
    requires forall i :: 0 <= i < |parts| ==> d !in parts[i]
    ensures Split(Join(parts, d), d) == parts
    decreases |parts|
  {
    if |parts| == 1 {
      SplitWithoutDelimiter(parts[0], d);
    } else {
      var s := Join(parts, d);
      var rest := parts[1..];
      assert forall i :: 0 <= i < |rest| ==> rest[i] == parts[i + 1];
      assert s == parts[0] + [d] + Join(rest, d);
      var k := |parts[0]|;
      assert s[..k] == parts[0] && s[k] == d && s[k + 1..] == Join(rest, d);
      SplitAtFirst(s, d, k);
      SplitJoinRoundTrip(rest, d);
      assert parts == [parts[0]] + rest;
    }
  }

  /** `s.split(d)`: the maximal `d`-free pieces, always at least one (the
      empty string splits into one empty piece). */
  function Split(s: string, d: char): (parts: seq<string>)
    ensures |parts| >= 1
    ensures forall i :: 0 <= i < |parts| ==> d !in parts[i]
    ensures Join(parts, d) == s
    decreases |s|
  {
    if |s| == 0 then [""]
    else
      var rest := Split(s[1..], d);
      if s[0] == d then
        JoinEmptyHead(rest, d);
        assert [d] + s[1..] == s;
        [""] + rest
      else
        JoinExtendsHead(s[0], rest, d);
        assert [s[0]] + s[1..] == s;
        [[s[0]] + rest[0]] + rest[1..]
  }

  /** An empty first piece leaves the joined string starting with `d`. */
  lemma JoinEmptyHead(parts: seq<string>, d: char)
    requires |parts| >= 1
    ensures Join([""] + parts, d) == [d] + Join(parts, d)
  {
    assert ([""] + parts)[1..] == parts;
  }

  /** Prepending a unit to the first piece prepends it to the joined string. */
  lemma JoinExtendsHead(c: char, parts: seq<string>, d: char)
    requires |parts| >= 1
    ensures Join([[c] + parts[0]] + parts[1..], d) == [c] + Join(parts, d)
  {
    var ext := [[c] + parts[0]] + parts[1..];
    assert ext[1..] == parts[1..];
  }

  /** A string without the delimiter splits into itself alone. */
  lemma {:induction false} SplitWithoutDelimiter(s: string, d: char)
    requires d !in s
    ensures Split(s, d) == [s]
    decreases |s|
  {
    if |s| > 0 {
      SplitWithoutDelimiter(s[1..], d);
      assert [s[0]] + s[1..] == s;
    }
  }

  /** Splitting cuts at the first delimiter, then splits the remainder. */
  lemma {:induction false} SplitAtFirst(s: string, d: char, k: nat)
    requires k < |s| && s[k] == d && d !in s[..k]
    ensures Split(s, d) == [s[..k]] + Split(s[k + 1..], d)
    decreases k
  {
    if k > 0 {
      assert s[1..][..k - 1] == s[1..k];
      SplitAtFirst(s[1..], d, k - 1);
      assert s[1..][k..] == s[k + 1..];
      assert [s[0]] + s[1..k] == s[..k];
    }
  }

  /** Every string holding the delimiter has a first one. */
  lemma FirstDelimiter(s: string) returns (k: nat)
    requires Delimiter in s
    ensures k < |s| && s[k] == Delimiter && Delimiter !in s[..k]
  {
    k := 0;
    while s[k] != Delimiter
      invariant k < |s| && Delimiter !in s[..k] && Delimiter in s[k..]
      decreases |s| - k
    {
      assert s[k..] == [s[k]] + s[k + 1..];
      k := k + 1;
    }
  }

  // ---------------------------------------------------------------------------
  // The composite image string
  // ---------------------------------------------------------------------------

  /** The family and version the editor derives from a stored image. */
  datatype ImageParts = ImageParts(family: string, version: string)

  /** The editor's initial family and version: the first piece of the image
      split on `-`, and the remaining pieces re-joined with `-`; both empty
      when the topic has no image. */
  function ParseImage(image: Option<string>): (parts: ImageParts)
    ensures Delimiter !in parts.family
    ensures image.None? ==> parts == ImageParts("", "")
  {
    match image
    case None => ImageParts("", "")
    case Some(s) =>
      var pieces := Split(s, Delimiter);
      ImageParts(pieces[0], Join(pieces[1..], Delimiter))
  }

  /** The image string a submit stores: `${family}-${version}`. */
  function ComposeImage(family: string, version: string): (image: string)
    ensures |image| == |family| + 1 + |version|
    ensures image[..|family|] == family && image[|family|] == Delimiter
    ensures image[|family| + 1..] == version
  {
    family + [Delimiter] + version
  }

  /** A stored image without `-` is all family and no version. */
  lemma ParseImageWithoutDelimiter(s: string)
    requires Delimiter !in s
    ensures ParseImage(Some(s)) == ImageParts(s, "")
  {
    SplitWithoutDelimiter(s, Delimiter);
  }

  /** A stored image with `-` parses to the text before its first `-` and
      everything after it, later `-` characters included. */
  lemma ParseImageAtFirstDelimiter(s: string, k: nat)
    requires k < |s| && s[k] == Delimiter && Delimiter !in s[..k]
    ensures ParseImage(Some(s)) == ImageParts(s[..k], s[k + 1..])
  {
    SplitAtFirst(s, Delimiter, k);
    var pieces := Split(s, Delimiter);
    assert pieces[1..] == Split(s[k + 1..], Delimiter);
  }

  /** Composing then parsing recovers the parts whenever the family holds no
      `-`, however many the version holds. */
  lemma ParseComposeRoundTrip(family: string, version: string)
    requires Delimiter !in family
    ensures ParseImage(Some(ComposeImage(family, version))) == ImageParts(family, version)
  {
    ParseImageAtFirstDelimiter(ComposeImage(family, version), |family|);
  }

  /** Parsing then composing reproduces a stored image that holds a `-`;
      one without a `-` comes back with a `-` appended. */
  lemma ComposeParseRoundTrip(s: string)
    ensures Delimiter in s ==>
      ComposeImage(ParseImage(Some(s)).family, ParseImage(Some(s)).version) == s
    ensures Delimiter !in s ==>
      ComposeImage(ParseImage(Some(s)).family, ParseImage(Some(s)).version) == s + [Delimiter]
  {
    if Delimiter in s {
      var k := FirstDelimiter(s);
      ParseImageAtFirstDelimiter(s, k);
      assert s[..k] + [Delimiter] + s[k + 1..] == s;
    } else {
      ParseImageWithoutDelimiter(s);
    }
  }

  /** A family that itself holds `-` does not survive the round trip: its
      tail moves into the version. */
  lemma FamilyWithDelimiterDoesNotRoundTrip()
    ensures ComposeImage("a-b", "c") == "a-b-c"
    ensures ParseImage(Some(ComposeImage("a-b", "c"))) == ImageParts("a", "b-c")
  {
    ParseImageAtFirstDelimiter("a-b-c", 1);
  }

  // ---------------------------------------------------------------------------
  // The icon catalog
  // ---------------------------------------------------------------------------

  /** One catalog entry: an icon family and the versions its font offers. */
  datatype Icon = Icon(name: string, fontVersions: seq<string>)

  /** Entry `k` is the first catalog entry named `family`. */
  predicate FirstMatch(catalog: seq<Icon>, family: string, k: int) {
    && 0 <= k < |catalog|
    && catalog[k].name == family
    && forall j :: 0 <= j < k ==> catalog[j].name != family
  }

  /** The catalog entries named `family`, in catalog order. */
  function MatchingIcons(catalog: seq<Icon>, family: string): (matches: seq<Icon>)
    ensures forall i :: 0 <= i < |matches| ==> matches[i] in catalog && matches[i].name == family
    ensures |matches| == 0 <==> forall i :: 0 <= i < |catalog| ==> catalog[i].name != family
    ensures forall k :: FirstMatch(catalog, family, k) ==> |matches| > 0 && matches[0] == catalog[k]
    decreases |catalog|
  {
    if |catalog| == 0 then []
    else
      var rest := MatchingIcons(catalog[1..], family);
      assert forall k :: 1 <= k < |catalog| ==> catalog[k] == catalog[1..][k - 1];
      if catalog[0].name == family then [catalog[0]] + rest else rest
  }

  /** The versions offered for `family`: those of the first catalog entry of
      that name, and none when no entry has it. */
  function IconVersions(catalog: seq<Icon>, family: string): (versions: seq<string>)
    ensures (forall i :: 0 <= i < |catalog| ==> catalog[i].name != family) ==> versions == []
    ensures forall k :: FirstMatch(catalog, family, k) ==> versions == catalog[k].fontVersions
  {
    var matches := MatchingIcons(catalog, family);
    if |matches| == 0 then [] else matches[0].fontVersions
  }

  // ---------------------------------------------------------------------------
  // The editor's state
  // ---------------------------------------------------------------------------

  /** The fields of a topic the editor reads; any of them may be missing. */
  datatype PartialTopic = PartialTopic(
    id: Option<string>,
    title: Option<string>,
    imageType: Option<ImageType>,
    image: Option<string>)

  /** The values held by the form's four fields. */
  datatype FormValues = FormValues(
    title: Option<string>,
    imageType: Option<ImageType>,
    image: string,
    imageVersion: string)

  /** The editor: the topic it edits, the family and version held in
      component state (which drive the preview and the version list), and
      the form's values (which a submit sends). */
  datatype Editor = Editor(topic: PartialTopic, family: string, version: string, form: FormValues)

  /** The component state and the form agree on family and version. */
  predicate Synced(e: Editor) {
    e.form.image == e.family && e.form.imageVersion == e.version
  }

  /** A freshly mounted editor. */
  function InitEditor(topic: PartialTopic): (e: Editor)
    ensures Synced(e) && e.topic == topic
    ensures e.form.title == topic.title && e.form.imageType == topic.imageType
    ensures ImageParts(e.family, e.version) == ParseImage(topic.image)
    ensures topic.image.None? ==> e.family == "" && e.version == ""
    ensures topic.image.Some? && Delimiter !in topic.image.value ==>
      e.family == topic.image.value && e.version == ""
  {
    var parts := ParseImage(topic.image);
    var e := Editor(topic, parts.family, parts.version,
                    FormValues(topic.title, topic.imageType, parts.family, parts.version));
    if topic.image.Some? && Delimiter !in topic.image.value then
      ParseImageWithoutDelimiter(topic.image.value);
      e
    else
      e
  }

  /** The user events the form reacts to. */
  datatype Event =
    | EditTitle(title: string)
    | PickImageType(imageType: ImageType)
    | PickFamily(family: string)
    | PickVersion(version: string)

  /** Choosing a family stores it and clears the version, in both the state
      and the form; the other events only update their own field (and, for
      the version, the state). */
  function Apply(e: Editor, event: Event): (e': Editor)
    ensures e'.topic == e.topic
    ensures Synced(e) ==> Synced(e')
    ensures event.PickFamily? ==>
      && e'.family == event.family && e'.version == ""
      && e'.form == e.form.(image := event.family, imageVersion := "")
    ensures event.PickVersion? ==>
      && e'.family == e.family && e'.version == event.version
      && e'.form == e.form.(imageVersion := event.version)
    ensures event.EditTitle? ==>
      && e'.family == e.family && e'.version == e.version
      && e'.form == e.form.(title := Some(event.title))
    ensures event.PickImageType? ==>
      && e'.family == e.family && e'.version == e.version
      && e'.form == e.form.(imageType := Some(event.imageType))
  {
    match event
    case EditTitle(t) => e.(form := e.form.(title := Some(t)))
    case PickImageType(ty) => e.(form := e.form.(imageType := Some(ty)))
    case PickFamily(f) =>
      e.(family := f, version := "", form := e.form.(image := f, imageVersion := ""))
    case PickVersion(v) => e.(version := v, form := e.form.(imageVersion := v))
  }

  /** The editor after a sequence of events. */
  function Run(e: Editor, events: seq<Event>): Editor
    decreases |events|
  {
    if |events| == 0 then e else Run(Apply(e, events[0]), events[1..])
  }

  /** The state and the form never drift apart, whatever the user does. */
  lemma {:induction false} RunKeepsSynced(e: Editor, events: seq<Event>)
    requires Synced(e)
    ensures Synced(Run(e, events))
    decreases |events|
  {
    if |events| > 0 {
      RunKeepsSynced(Apply(e, events[0]), events[1..]);
    }
  }

  /** The preview icon's class name: `devicon-${family}-${version}`. */
  function PreviewClass(family: string, version: string): (className: string)
    ensures className == "devicon-" + ComposeImage(family, version)
    ensures version == "" ==> className[|className| - 1] == Delimiter
  {
    "devicon-" + family + "-" + version
  }

  /** The preview always shows the very image a submit would store. */
  lemma PreviewShowsSubmittedImage(topic: PartialTopic, events: seq<Event>)
    ensures var e := Run(InitEditor(topic), events);
      PreviewClass(e.family, e.version) == "devicon-" + ComposeImage(e.form.image, e.form.imageVersion)
  {
    RunKeepsSynced(InitEditor(topic), events);
  }

  // ---------------------------------------------------------------------------
  // Submitting
  // ---------------------------------------------------------------------------

  /** The data of the update mutation. */
  datatype UpdateTopicInput = UpdateTopicInput(
    id: Option<string>,
    title: string,
    imageType: Option<ImageType>,
    image: string)

  /** Pressing Save: the form's required-title rule rejects a missing or
      empty title (and `onFinish` never runs); otherwise the mutation is sent
      with the composed image. */
  function Submit(e: Editor): (request: Option<UpdateTopicInput>)
    ensures request.None? <==> e.form.title.None? || e.form.title.value == ""
    ensures request.Some? ==>
      && request.value.id == e.topic.id
      && request.value.title == e.form.title.value
      && request.value.imageType == e.form.imageType
      && request.value.image == ComposeImage(e.form.image, e.form.imageVersion)
      && (Delimiter !in e.form.image ==>
            ParseImage(Some(request.value.image)) == ImageParts(e.form.image, e.form.imageVersion))
  {
    match e.form.title
    case None => None
    case Some(t) =>
      if t == "" then None
      else
        var request := UpdateTopicInput(e.topic.id, t, e.form.imageType,
                                        ComposeImage(e.form.image, e.form.imageVersion));
        if Delimiter !in e.form.image then
          ParseComposeRoundTrip(e.form.image, e.form.imageVersion);
          Some(request)
        else
          Some(request)
  }

  /** Saving an untouched editor stores the topic's image unchanged when it
      holds a `-`, with a `-` appended when it does not, and `-` alone when
      the topic had no image. */
  lemma SubmitUntouchedImage(topic: PartialTopic)
    requires topic.title.Some? && topic.title.value != ""
    ensures Submit(InitEditor(topic)).Some?
    ensures topic.image.None? ==> Submit(InitEditor(topic)).value.image == [Delimiter]
    ensures topic.image.Some? && Delimiter in topic.image.value ==>
      Submit(InitEditor(topic)).value.image == topic.image.value
    ensures topic.image.Some? && Delimiter !in topic.image.value ==>
      Submit(InitEditor(topic)).value.image == topic.image.value + [Delimiter]
  {
    if topic.image.Some? {
      ComposeParseRoundTrip(topic.image.value);
    }
  }

  /** After the mutation answers: an error is shown and the editor keeps
      everything the user entered; otherwise the page reloads, without a
      toast. */
  function OnFinish(e: Editor, result: MutationResult): (after: (Editor, Outcome))
    ensures after.1.ErrorToast? <==> result.MutationError?
    ensures result.MutationError? ==> after.1.text == result.message && after.0 == e
    ensures after.1.Reload? ==> after.1.successToast == None
  {
    match result
    case MutationError(msg) => (e, ErrorToast(msg))
    case MutationOk => (e, Reload(None))
  }
}
