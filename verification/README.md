# nyxo-website: excerpt hook and week sections, in Dafny

This project models the two pieces of data logic in the nyxo website, a Gatsby site built
from Contentful content.

- **The excerpt build hook** (`onCreateNode` of the coaching theme). Gatsby calls the hook once
  for every node it creates. For a rich-text node owned by the Contentful source plugin, the
  hook does four things. It parses the node's content as JSON. It renders the document to
  plain text. It keeps the first 140 UTF-16 code units of that text. It attaches the result
  to the node as the field `excerpt`. Every other node is left alone.
- **The week page's lesson sections** (`Week` template). The page turns a week's flat lesson
  list into page sections in four steps:
  - lodash `groupBy` groups the lessons by their section title;
  - `sectionData` projects each lesson's section;
  - `Object.entries` turns the groups into `{ header, data }` sections, where the header is
    the first `sectionData` entry that carries the group's title, or `{}` when none does;
  - the tag groups are mapped to tag strings, and a missing value defaults to `"adenosine"`.

Files:

- `js.dfy` (module `Js`): the JavaScript values the code relies on. These are strings as
  UTF-16 code units, values that may be `undefined` or `null`, and `String.prototype.slice`.
- `excerpt.dfy` (module `Excerpt`): the hook, the node field it writes, and its properties.
- `object_keys.dfy` (module `ObjectKeys`): the order in which `Object.entries` lists an
  object's keys. Keys that are array indices come first, in ascending numeric order. All
  other keys follow in insertion order.
- `week.dfy` (module `Week`): the grouping, the section data, the sections and the tags,
  with the partition, order, key and header properties.

`JSON.parse` and the rich-text plain-text renderer are foreign code. `OnCreateNode` takes
them as parameters: `parse` is partial, returning `None` where `JSON.parse` throws, and
`render` is an arbitrary total function. `loadNodeContent(node)` is modelled as reading the
node's raw content, `node.internal.content`.

The hook keeps the first 140 UTF-16 code units of the plain text. The length is a
constant, and the cut counts code units, not characters, so an excerpt can end in half of
a surrogate pair (`CutCanSplitSurrogatePair`). The hook returns nothing: its only effect is
the node field it writes.

Two properties of the grouping are stated in full, not assumed away:

- `groupBy` keys are the string forms of the titles. A lesson without a section is filed
  under `"undefined"`, and a section with a `null` title under `"null"`.
- Titles that look like array indices (`"1"`, `"42"`) are listed before all other titles,
  whatever their order in the lessons.

## Model

| member | source | states |
|---|---|---|
| Js.ClampIndex | gatsby-theme-nyxo-coaching/src/lib/excerpt.ts:16 | the index `slice` resolves lies in [0, len]; a non-negative argument resolves to min(i, len) |
| Js.Slice | gatsby-theme-nyxo-coaching/src/lib/excerpt.ts:16 | `slice` returns the run of the string from the resolved start index to the resolved end index, or the empty string when the end does not lie after the start |
| Js.SliceFromStart | gatsby-theme-nyxo-coaching/src/lib/excerpt.ts:16 | `s.slice(0, end)` with end >= 0 is the prefix of length min(end, length) |
| Excerpt.Truncate | gatsby-theme-nyxo-coaching/src/lib/excerpt.ts:16 | the excerpt has length min(length, 140) and is a prefix of the plain text |
| Excerpt.OnCreateNode | gatsby-theme-nyxo-coaching/src/lib/excerpt.ts:4-18 | the hook skips exactly the nodes that fail the media-type/owner guard; it throws exactly when a guarded node's content does not parse; otherwise it creates one field, named `excerpt`, on the same node, holding a prefix of length min(length, 140) of the rendered text |
| Excerpt.IsContentfulRichText | gatsby-theme-nyxo-coaching/src/lib/excerpt.ts:11 | the guard: the media type is `text/richtext` and the owner is `gatsby-source-contentful` |
| Excerpt.CreateNodeField | gatsby-theme-nyxo-coaching/src/lib/excerpt.ts:17 | writing a field sets that field to the value; the node's id, the modelled internal record (owner, media type, content) and all other fields are unchanged |
| Excerpt.Process | gatsby-theme-nyxo-coaching/src/lib/excerpt.ts:4-18 | the node after the hook: unchanged unless a field was created; then `excerpt` holds the truncated rendered text, and the id, the internal record and every other field are kept |
| Excerpt.OtherMediaTypeUntouched | gatsby-theme-nyxo-coaching/src/lib/excerpt.ts:11-13 | a node whose media type is not `text/richtext` is skipped and left unchanged |
| Excerpt.OtherOwnerUntouched | gatsby-theme-nyxo-coaching/src/lib/excerpt.ts:11-13 | a node not owned by `gatsby-source-contentful` is skipped and left unchanged |
| Excerpt.MalformedContentWritesNothing | gatsby-theme-nyxo-coaching/src/lib/excerpt.ts:14-17 | content that is not valid JSON makes the hook throw before any field is written, so the node is unchanged |
| Excerpt.ProcessWritesOnlyExcerpt | gatsby-theme-nyxo-coaching/src/lib/excerpt.ts:14-17 | on a guarded node with valid content, `excerpt` becomes the truncated plain text; the id, the internal record and every other field are kept |
| Excerpt.ProcessIdempotent | gatsby-theme-nyxo-coaching/src/lib/excerpt.ts:4-18 | running the hook again on the node it produced changes nothing |
| Excerpt.ShortTextKeptWhole | gatsby-theme-nyxo-coaching/src/lib/excerpt.ts:16 | text of at most 140 code units is kept whole, with no ellipsis; empty text gives an empty excerpt |
| Excerpt.LongTextCut | gatsby-theme-nyxo-coaching/src/lib/excerpt.ts:16 | longer text is cut to exactly its first 140 code units, with nothing appended |
| Excerpt.TruncateIdempotent | gatsby-theme-nyxo-coaching/src/lib/excerpt.ts:16 | truncating an excerpt again returns it unchanged |
| Excerpt.CutCanSplitSurrogatePair | gatsby-theme-nyxo-coaching/src/lib/excerpt.ts:16 | when the 140th code unit is a high surrogate, the excerpt ends in that unpaired surrogate |
| ObjectKeys.Select | src/templates/week.tsx:65 | selecting the keys of one array-index status keeps exactly the keys of that status |
| ObjectKeys.Insert | src/templates/week.tsx:65 | inserting an array-index key into an ascending list gives an ascending list with that key added |
| ObjectKeys.SortByIndex | src/templates/week.tsx:65 | array-index keys are put in ascending numeric order, as a permutation of the input |
| ObjectKeys.EntriesOrder | src/templates/week.tsx:65 | `Object.entries` lists as many keys as were added, and exactly the keys that were added |
| ObjectKeys.SelectSplit | src/templates/week.tsx:65 | the index keys and the other keys together hold every key exactly once |
| ObjectKeys.SelectWithoutIndices | src/templates/week.tsx:65 | when no key is an array index, no key is selected as one and the other keys are the whole list |
| ObjectKeys.SelectPreservesOrder | src/templates/week.tsx:65 | two selected keys keep the relative order of their original positions |
| ObjectKeys.EntriesOrderPermutes | src/templates/week.tsx:65 | `Object.entries` lists every key exactly once: its order is a permutation of the insertion order |
| ObjectKeys.EntriesOrderShape | src/templates/week.tsx:65 | `Object.entries` lists the array-index keys first, in ascending order, then the other keys in insertion order |
| ObjectKeys.EntriesOrderKeepsNonIndexOrder | src/templates/week.tsx:65 | two keys that are not array indices are listed in the order they were added |
| ObjectKeys.EntriesOrderWithoutIndices | src/templates/week.tsx:65 | without array-index keys, `Object.entries` lists the keys in insertion order |
| Week.PropertyKey | src/templates/week.tsx:57 | a title used as an object key becomes its string form: a defined title is itself; the key `"undefined"` comes from an undefined title or the literal title "undefined", and `"null"` likewise from `null` or "null" |
| Week.GroupKey | src/templates/week.tsx:57 | a lesson without a section is filed under `"undefined"`; a lesson whose section has a defined title is filed under that title |
| Week.Members | src/templates/week.tsx:57 | a lesson belongs to the group of a key exactly when its `groupBy` key is that key |
| Week.GroupBy | src/templates/week.tsx:57 | `groupBy` adds each key once; its keys are exactly the string forms of the lessons' section titles |
| Week.FirstIndex | src/templates/week.tsx:57 | the position of the first lesson that carries a key |
| Week.GroupByMatchesMembers | src/templates/week.tsx:57 | the array `groupBy` stores under each key is that key's lessons, in list order |
| Week.GroupKeysInFirstAppearanceOrder | src/templates/week.tsx:57 | `groupBy` adds keys in the order in which their first lessons appear |
| Week.MembersHead | src/templates/week.tsx:57 | a group starts with the first lesson that carries its key |
| Week.MembersSubsequence | src/templates/week.tsx:57 | a group keeps the relative order of its lessons in the list |
| Week.Project | src/templates/week.tsx:58-63 | the projected entry carries the lesson's section title; it is the lesson's section when there is one, and all four fields are undefined otherwise |
| Week.SectionData | src/templates/week.tsx:58-63 | `sectionData` has one entry per lesson; entry i is lesson i's section (title, id, description, order), or all-undefined when the lesson has no section |
| Week.FindHeader | src/templates/week.tsx:67 | the header is empty exactly when no entry's title strictly equals the key; otherwise it is the first entry whose title equals the key |
| Week.SectionKeys | src/templates/week.tsx:65 | the section keys list every distinct `groupBy` key exactly once |
| Week.Sections | src/templates/week.tsx:65-70 | there is one section per listed key; its data is that key's group and its header is the header found for that key |
| Week.SectionsPartitionLessons | src/templates/week.tsx:57-70 | the sections together hold each lesson exactly as often as the list does, so their sizes sum to the number of lessons |
| Week.LessonInExactlyOneSection | src/templates/week.tsx:57-70 | every lesson lies in the section of its own key and in no other section |
| Week.SectionsAreOrderedGroups | src/templates/week.tsx:57-70 | every section is non-empty, all its lessons carry its key, and they keep their order from the lesson list |
| Week.SectionCountIsKeyCount | src/templates/week.tsx:65-70 | there is one section per distinct key |
| Week.HeaderEmptyIffNoTitledSection | src/templates/week.tsx:67 | a section's header is `{}` exactly when no lesson's section carries the section's key as its title |
| Week.HeaderTitleIsKey | src/templates/week.tsx:67 | a non-empty header carries the section's key as its title |
| Week.MissingSectionGroup | src/templates/week.tsx:57-67 | a lesson without a section falls into the group `"undefined"`, whose header is empty unless some section is literally titled `"undefined"` |
| Week.HeaderIsFirstLessonsSection | src/templates/week.tsx:57-67 | when the first lesson of a group has a titled section, that lesson heads the group and its section is the header |
| Week.SectionOrder | src/templates/week.tsx:65 | the first m sections, for the m it returns, are exactly those with array-index titles, in ascending order; the other sections follow in the order `groupBy` added them |
| Week.SectionsInFirstAppearanceOrder | src/templates/week.tsx:57-65 | two sections whose titles are not array indices appear in the order in which their first lessons appear |
| Week.SectionKeysWithoutIndexTitles | src/templates/week.tsx:57-65 | when no title looks like an array index, the sections follow the order in which `groupBy` added the keys |
| Week.ExampleWeek | src/templates/week.tsx:57-70 | a week with lessons a (section "Basics"), b (no section) and c ("Basics") gives two sections: "Basics" holding [a, c] with its section as header, then "undefined" holding [b] with an empty header |
| Week.TagValue | src/templates/week.tsx:106 | a tag is never undefined: an undefined `fieldValue` becomes `"adenosine"`, and any other value, `null` included, is kept |
| Week.TagList | src/templates/week.tsx:105-107 | one tag per tag group; an undefined `fieldValue` becomes `"adenosine"`, and any other value is kept as it is, `null` included |
| Week.TagColumn | src/templates/week.tsx:97-108 | the tag column is shown exactly when `tags`, its group list and at least one group exist; it then lists the tag list of the groups, one tag per group, none of them undefined |
| Week.TagColumnHidden | src/templates/week.tsx:97 | missing tags, a missing group list or an empty one hide the tag column |

## Left out

- The internals of `JSON.parse` and of `documentToPlainTextString`. They are foreign library
  code, so `parse` and `render` are parameters.
- `loadNodeContent`. It is a build-system call, modelled as reading `node.internal.content`.
- How Gatsby schedules and parallelises the asynchronous hook. This is concurrency owned by
  the build system.
- What `createNodeField` does when another plugin already owns the field name. The model
  simply overwrites the field.
- The bookkeeping `createNodeField` keeps in `node.internal.fieldOwners` (which plugin wrote
  which field). The modelled internal record is only owner, media type and content.
- The week description at week.tsx line 55. It only renders rich text with the foreign
  renderer.
- A `lessons` list that is itself `null` or `undefined`. `groupBy` would return `{}`, but
  `lessons.map` at week.tsx line 58 throws, so the page fails. The model's lesson list is
  always a list.
- `null` entries in the lesson list. The `groupBy` key function tolerates them, but line 59
  (`item.section`) would throw, so lessons are never null in the model.
- The lessons' other fields (cover, content, reading time) and the section's rich-text
  description. The grouping only carries them along, so a lesson is reduced to slug, name
  and section, and a description is an opaque value.
- All JSX rendering, including the use of `header.id` as a React key, styled-components CSS,
  and the `graphql` page queries.
- src/pages/coaching.tsx. Its week selection by language is trivial. Its bookmark loop
  builds cards that it throws away.
- Bookmark reconciliation. It lives in hooks (`useGetUserBookmarks`, `useGetAllBookmarks`)
  that are not part of this model.
- src/components/Auth/Details.tsx, src/components/Comments/Comments.tsx and
  src/components/header.tsx. They hold UI state, remote hooks, authentication and
  navigation side effects.
- src/pages/index.tsx and src/components/Habit/HabitHighlights.tsx. They are presentation
  over static queries.
