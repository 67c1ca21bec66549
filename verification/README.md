# learnplex front end: decision and string logic

A functional Dafny model of the pure logic that sits inside three React
components of the learnplex learning platform's front end:

- **Resource card grid** (`ResourceCards`): resources are shown newest
  first; the owner and topic tags are cut to 14 characters plus `...` when
  longer than 15 characters and then carry a tooltip with the full value; the
  action buttons depend on the current path (`/_admin`, `/resources/me`,
  anything else); the cover is a device icon or an image; a click on the card,
  the user tag or the topic tag leads to `/learn/<slug>`,
  `/<username>/resources` or `/topics/<slug>`; an empty list shows a
  placeholder.
- **Topic editor** (`EditTopic`): a topic's image is one composite string
  `family-version`. The editor splits it on `-`, keeps the first piece as the
  icon family and re-joins the rest as the version, offers the versions of the
  first catalog entry with that family name, clears the version whenever the
  family changes, previews `devicon-<family>-<version>`, and on Save sends
  `<family>-<version>`, then reloads or shows the server's error.
- **Admin topics page** (`EditTopicsPage`): no signed-in user gives the
  not-authenticated view, then a missing role list or one without `ADMIN`
  gives the not-authorized view; otherwise one editor per topic. Fetched
  topics are sorted by id with JavaScript's string comparison (module `Lex`),
  and a failed fetch leaves the list as it was.

`Wrappers` holds `Option` (for `undefined` fields), `GraphqlTypes` the
role and image-type enumerations and the shape of a mutation's answer, and
`Feedback` the `Outcome` a page acts on once a mutation has answered.
Effects (queries, mutations, navigation, reloads, toasts) appear only as the
values that say which one happens.

Two behaviours of the code are worth stating plainly:

- On `/_admin` a card always has exactly two buttons, whatever `verified`
  is, because the conditional push at
  `src/components/learn/ResourceCards.tsx:111-114` goes into a local list
  that is never returned.
- The topics fetch fires on mount whatever the guard decides
  (`src/pages/topics/edit.tsx:15-43`); the model states only what is
  rendered.

## Model

| member | source | states |
|---|---|---|
| `Lex.Less` | src/pages/topics/edit.tsx:35 | JavaScript's string `<`: never true of equal strings, and the empty string is less than exactly the non-empty ones |
| `Lex.LessIffFirstDifference` | src/pages/topics/edit.tsx:35 | JavaScript's string `<` holds exactly when the first string is a proper prefix of the second or is smaller at their first difference |
| `Lex.LessIrreflexive` | src/pages/topics/edit.tsx:35 | no id is less than itself |
| `Lex.LessAsymmetric` | src/pages/topics/edit.tsx:35 | two ids are never each less than the other |
| `Lex.LessTransitive` | src/pages/topics/edit.tsx:35 | string `<` is transitive |
| `Lex.LessTrichotomous` | src/pages/topics/edit.tsx:35 | two ids are equal or ordered one way or the other |
| `EditTopic.Join` | src/components/EditTopic.tsx:13 | `join('-')` of no pieces is empty, starts with the first piece, and puts exactly one `-` between each two `-`-free pieces: after the first piece come `-` and the join of the rest |
| `EditTopic.Split` | src/components/EditTopic.tsx:11-13 | `split('-')` yields at least one piece, no piece holds `-`, and joining the pieces with `-` gives back the string |
| `EditTopic.SplitJoinRoundTrip` | src/components/EditTopic.tsx:11-13 | splitting the join of one or more `-`-free pieces gives the pieces back |
| `EditTopic.SplitWithoutDelimiter` | src/components/EditTopic.tsx:11 | a string without `-` splits into itself alone |
| `EditTopic.SplitAtFirst` | src/components/EditTopic.tsx:11-13 | splitting cuts at the first `-` and splits the rest |
| `EditTopic.ParseImage` | src/components/EditTopic.tsx:11-14 | the parsed family never holds `-`; an absent image parses to an empty family and version |
| `EditTopic.ParseImageWithoutDelimiter` | src/components/EditTopic.tsx:11-14 | an image without `-` is all family, with an empty version |
| `EditTopic.ParseImageAtFirstDelimiter` | src/components/EditTopic.tsx:11-14 | an image with `-` parses to the text before its first `-` and everything after it, later `-` kept |
| `EditTopic.ComposeImage` | src/components/EditTopic.tsx:41 | the stored image is the family, one `-`, then the version, with the matching length |
| `EditTopic.ParseComposeRoundTrip` | src/components/EditTopic.tsx:11-41 | composing then parsing gives back family and version whenever the family has no `-`, even if the version has some |
| `EditTopic.ComposeParseRoundTrip` | src/components/EditTopic.tsx:11-41 | parsing then composing reproduces an image holding `-`, and appends `-` to one without |
| `EditTopic.FamilyWithDelimiterDoesNotRoundTrip` | src/components/EditTopic.tsx:11-41 | family `a-b` with version `c` is stored as `a-b-c` and read back as family `a`, version `b-c` |
| `EditTopic.MatchingIcons` | src/components/EditTopic.tsx:17 | the filter keeps only catalog entries of that name, is empty exactly when none has it, and starts with the first such entry |
| `EditTopic.IconVersions` | src/components/EditTopic.tsx:16-22 | no entry of that name gives no versions; otherwise the font versions of the first entry of that name |
| `EditTopic.InitEditor` | src/components/EditTopic.tsx:11-58 | a new editor's state and form agree, the form starts from the topic's title and image type, family and version are the parsed image (both empty without an image), and an image without `-` becomes the family with an empty version |
| `EditTopic.Apply` | src/components/EditTopic.tsx:86-100 | picking a family stores it in state and form and clears the version in both, leaving the rest of the form alone; picking a version changes only the version in state and form; editing title or type changes only that form field; an editor in sync stays in sync |
| `EditTopic.RunKeepsSynced` | src/components/EditTopic.tsx:86-100 | after any sequence of user events the state's family and version equal the form's |
| `EditTopic.PreviewClass` | src/components/EditTopic.tsx:110 | the preview class is `devicon-` before the composed image, so an empty version leaves a trailing `-` |
| `EditTopic.PreviewShowsSubmittedImage` | src/components/EditTopic.tsx:35-110 | whatever the user did, the preview names the very image a submit would send |
| `EditTopic.Submit` | src/components/EditTopic.tsx:35-66 | a missing or empty title blocks the submit; otherwise the request carries the topic id, the form's title and type, and the composed image `family-version`, which parses back to the form's family and version when the family has no `-` |
| `EditTopic.SubmitUntouchedImage` | src/components/EditTopic.tsx:11-41 | saving an untouched editor keeps an image holding `-`, appends `-` to one without, and stores `-` for a topic without image |
| `EditTopic.OnFinish` | src/components/EditTopic.tsx:45-49 | an error result shows its message, does not reload and leaves the editor as the user left it; any other result reloads without a success toast |
| `ResourceCards.InsertByDate` | src/components/learn/ResourceCards.tsx:29 | inserting into a newest-first list keeps it newest first and adds exactly that resource |
| `ResourceCards.SortNewestFirst` | src/components/learn/ResourceCards.tsx:29 | the shown order is a permutation of the input in which no resource precedes a strictly newer one |
| `ResourceCards.Truncate` | src/components/learn/ResourceCards.tsx:55-59 | a value of at most 15 characters is unchanged; a longer one becomes its first 14 characters and `...`, 17 characters in all |
| `ResourceCards.TruncateIdempotent` | src/components/learn/ResourceCards.tsx:56-59 | truncating twice equals truncating once |
| `ResourceCards.TruncateFixedPoints` | src/components/learn/ResourceCards.tsx:56-59 | truncation leaves a value unchanged exactly when it has at most 15 characters or has 17 ending in `...` |
| `ResourceCards.TruncateLength` | src/components/learn/ResourceCards.tsx:56-58 | a 16-character value comes out one longer, a 17-character one equally long, longer ones shorter |
| `ResourceCards.RenderTag` | src/components/learn/ResourceCards.tsx:61-72 | a tag has a tooltip exactly when its value is over 15 characters, the tooltip shows the full value, the text is the truncated value, and without a tooltip the text is the value itself |
| `ResourceCards.ResourceTarget` | src/components/learn/ResourceCards.tsx:51-53 | a card leads to `/learn/` followed by the resource slug |
| `ResourceCards.TopicTarget` | src/components/learn/ResourceCards.tsx:31-35 | a topic tag leads to `/topics/` followed by the topic slug |
| `ResourceCards.UserResourcesTarget` | src/components/learn/ResourceCards.tsx:37-47 | a user tag leads to `/`, the username, then `/resources` |
| `ResourceCards.TargetsRoundTrip` | src/components/learn/ResourceCards.tsx:31-53 | the slugs and the username can be read back from the card, topic-tag and user-tag paths |
| `ResourceCards.UserAndTopicTargetsCollide` | src/components/learn/ResourceCards.tsx:31-47 | user `topics` and topic `resources` lead to the same path |
| `ResourceCards.AdminActions` | src/components/learn/ResourceCards.tsx:110-133 | always two buttons, whatever `verified` is: a publish toggle captioned `Unpublish` when published and `Publish` otherwise, drawn as danger when published and as primary otherwise; then a primary toggle captioned `Remove as Primary` when verified and `Make Primary` otherwise, drawn as danger when verified and as primary otherwise |
| `ResourceCards.GetActions` | src/components/learn/ResourceCards.tsx:110-153 | on `/_admin` exactly the two admin buttons, whatever `verified` is; on `/resources/me` only the admin publish toggle, with the same caption and flags; elsewhere none |
| `ResourceCards.PublishButtonSharedByViews` | src/components/learn/ResourceCards.tsx:110-153 | the publish button is the same on both pages that show it, and the admin button count does not depend on `verified` |
| `ResourceCards.ToggleOutcome` | src/components/learn/ResourceCards.tsx:83-89 | an error result shows its message; any other result toasts `Status updated successfully.` and reloads |
| `ResourceCards.CoverOf` | src/components/learn/ResourceCards.tsx:170-181 | a device-icon topic gets an icon cover of class `devicon-` followed by the topic image, any other an image cover showing the topic image |
| `ResourceCards.CoverMatchesEditorPreview` | src/components/learn/ResourceCards.tsx:174 | a card's icon for an image saved by the editor is the icon the editor previewed |
| `ResourceCards.RenderCard` | src/components/learn/ResourceCards.tsx:162-237 | a card is keyed by the resource id, shows its title, description and cover, carries the path's buttons, leads to `/learn/<slug>`, and has a user tag and a topic tag with truncated text, a tooltip showing the full username or slug exactly for values over 15 characters, and their own targets |
| `ResourceCards.NavigateTargets` | src/components/learn/ResourceCards.tsx:162-237 | a click on the card, user tag or topic tag pushes exactly the resource, user-resources or topic path |
| `ResourceCards.RenderGrid` | src/components/learn/ResourceCards.tsx:155-246 | the shown list is a newest-first permutation of the resources, with one card per shown resource in that order, and the empty placeholder shows exactly when there are none |
| `EditTopicsPage.CompareIds` | src/pages/topics/edit.tsx:34-36 | the comparator returns 0 exactly for equal ids, a negative value exactly when the first is less, a positive one exactly when it is greater |
| `EditTopicsPage.CompareIdsAntisymmetric` | src/pages/topics/edit.tsx:35 | swapping the ids negates the comparison |
| `EditTopicsPage.CompareIdsTransitive` | src/pages/topics/edit.tsx:35 | "not after" in id order is transitive |
| `EditTopicsPage.InsertById` | src/pages/topics/edit.tsx:34-36 | inserting into an id-ascending list keeps it ascending and adds exactly that topic |
| `EditTopicsPage.SortById` | src/pages/topics/edit.tsx:34-36 | the sorted topics are a permutation of the fetched ones, non-decreasing by id |
| `EditTopicsPage.StringOrderOfIds` | src/pages/topics/edit.tsx:34-36 | ids compare as strings: topic "10" is placed before topic "9" |
| `EditTopicsPage.OnTopicsFetched` | src/pages/topics/edit.tsx:29-38 | an error keeps the current list and toasts the message; a success stores the fetched topics sorted by id |
| `EditTopicsPage.FailedFetchShowsNoTopics` | src/pages/topics/edit.tsx:13-31 | starting from no topics, a failed fetch leaves none |
| `EditTopicsPage.Render` | src/pages/topics/edit.tsx:42-53 | no user gives the not-authenticated view whatever the topics; a user whose roles are missing or lack `ADMIN` exactly gives the not-authorized view; an admin gets one editor per topic, in order, each freshly initialised from its topic |
| `EditTopicsPage.EditorsOnlyForAdmins` | src/pages/topics/edit.tsx:42-43 | the editors are shown exactly to a signed-in user whose roles include `ADMIN` |

## Left out

- Rendering: layout, styling, the ellipsis of titles and descriptions, the title tooltip and the card's visual attributes are not modelled; a card keeps only its key, title, description, cover, buttons, target and tags.
- Effects: the GraphQL client, the publish and primary toggle mutations (their source is not part of this model), `router.push`, `router.reload` and the toasts appear only as the `Outcome` values and target paths that say which one happens.
- The icon catalog `devicon.json` is not part of this model; it is a parameter `seq<Icon>` of `IconVersions`.
- Strings are sequences of Unicode scalar values, while JavaScript's `length`, `substr`, `split` and `<` work on UTF-16 code units; the two agree on text without characters outside the Basic Multilingual Plane.
- ResourceCards.ToggleOutcome: the publish and primary toggles toast the `message` field of their helper's own result, whose shape is not part of this model; the model assumes that field is the error text.
- ResourceCards.SortNewestFirst: `createdDate` is an integer standing for any totally ordered timestamp, and ties are placed in one fixed way; the source's comparator answers 1 for equal keys, so its tie order depends on the JavaScript engine and is not claimed.
- The in-place mutation of the resource list passed in by the parent is not modelled.
- The case-insensitive filter of the family selector depends on Unicode `toLowerCase` and is not modelled.
- Effect timing: the topics fetch fires on mount whatever the guard decides, and state updates after unmount are not modelled.
- The `ImageType` enumeration the components import is not declared in the schema type declarations at all; it is modelled as `DevIcon | OtherImageType`.
- The form's image-type selector offers only the device-icon kind, while the `PickImageType` event of the editor accepts either constructor.
- The schema type declarations lack several fields the components read (`createdDate`, `published`, `description`, `image`, `imageType`); the records here carry the fields the components read, and only `UserRole` is taken from the declarations.
- The profile page that hosts the resource grid (its email visibility rule and fetches) is not part of this model.
