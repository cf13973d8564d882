# Wayland protocol documenter: entity model, builder, ordering and flat form

`wpd.py` reads Wayland protocol description files (XML) and renders them.
This project models its core in Dafny:

- the entity model (`Description`, `CommonFields`, `Argument`, `Entry`,
  `Message` for requests and events, `Enum`, `Interface`, `Protocol`,
  `ProtocolFile`, and the `ProtocolCollection` class);
- the builder that turns one parsed document into a `ProtocolFile` and a set
  of documents into a `ProtocolCollection`;
- the stability tier of a file (`calc_stability`), the three-way file
  comparator (`_protocol_files_sorter`) and the in-place sort of the
  collection (`sort_protocol_files`);
- the flattener `generate_simple_struct`, which turns the model into nested
  `[key, value]` lists;
- the rule that drops documents whose key has a `tests` segment.

The parsed markup is an abstract `Element`: a tag, an attribute map, an
optional text and the child elements in document order.
`element.get(k, d)` is a lookup with a default.
`element.xpath('tag')` is the children with that tag, in order.
`parsed.xpath('/protocol')` is the root itself when its tag is `protocol`, and
nothing otherwise.

Each loop of the source is a `method` with a `while` loop. Each method is
proved equal to a function that states what the loop computes. The lemmas
are stated about those functions:

- the builder's defaults, trimming and document order;
- which documents the collection keeps;
- the comparator's laws;
- permutation, sortedness, stability and idempotence of the sort;
- the key order of the flat form;
- a decoder that reads the flat form back, losing only the copyrights.

Files:

- `wrappers.dfy`: `Option`, a pointwise `Map` and `Present`, which keeps the present results of a function over a list in order.
- `text.dfy`: Python's `str.strip`, `str.split` and `<` on `str`.
- `elements.dfy`: the element tree.
- `model.dfy`: the constants, the entity datatypes and `CalcStability`.
- `stability.dfy`: tier lemmas.
- `ordering.dfy`: the comparator and its laws.
- `sorting.dfy`: a stable sort for any three-way comparator.
- `builder.dfy`: the builder.
- `collection.dfy`: `ProtocolCollection`, its sort and the collection builder.
- `simple_struct.dfy`: the flat form.
- `keys.dfy`: the `tests` exclusion.

Two behaviours of the program that are easy to misread:

- A document is accepted whenever its root tag is `protocol`. The root need
  not carry a `name` attribute; a missing name becomes `""`.
- The `tests` rule (wpd.py:1002-1005) splits the whole key `dirname/basename`
  on `/`, so it would drop a file named `tests` as well as a file under a
  `tests` directory. A file named `tests` never reaches the rule, though:
  file discovery keeps only names ending in `.xml` (wpd.py:437-438).
  `Keys.ExcludedKeyName` states the rule for every base name; only the
  directory case arises in practice.

## Model

| member | source | states |
|---|---|---|
| Model.ProtocolFile.CalcStability | wpd.py:295-316 | the tier is always one of `STABILITY_ORDER`, so the later `.index` lookup cannot fail |
| Model.IndexOf | wpd.py:254-255 | `list.index`: the position of the first occurrence of a present element |
| Stability.WaylandIsStable | wpd.py:25-27 | `wayland.xml` is `stable` whatever its directory: the allow-lists are consulted before the directory |
| Stability.DirectorySegments | wpd.py:305-316 | for a file on no allow-list, each tier holds exactly when the matching whole `/`-segment is present and no earlier-checked tier word is (`stable`, then `unstable`, then `staging`, else `unknown`) |
| Stability.UnstableBeforeStaging | wpd.py:308-313 | a directory with both `unstable` and `staging` segments (and no `stable` one) is `unstable` |
| Stability.SuffixedTierWordIsUnknown | wpd.py:305-316 | a lone segment made of `stable`, `unstable` or `staging` followed by a non-empty suffix, such as `unstable-x`, gives `unknown` |
| Stability.LoneSegmentIsUnknown | wpd.py:305-316 | a directory without `/` that is not itself `stable`, `unstable` or `staging` gives `unknown` |
| Stability.InnerSegmentIsFound | wpd.py:305-313 | `a/staging/c` is `staging` when `a` and `c` are no other tier word: a segment matches wherever it sits |
| Text.SplitMembership | wpd.py:305-313 | a word is among the results of `split('/')` exactly when it occurs in the string as a whole segment bounded by `/` or an end |
| Text.JoinSplit | wpd.py:305 | the parts of `split` joined by the separator give back the string |
| Text.SplitThree | wpd.py:305 | three separator-free parts joined by two separators split back into exactly those parts |
| Text.StripSpec | wpd.py:44-45 | `strip()` removes only whitespace, all of it at both ends, and leaves a slice of the input |
| Text.StripIdempotent | wpd.py:44-45 | stripping a stripped string changes nothing |
| Text.StripAllSpace | wpd.py:44-45 | an all-whitespace string strips to `""` |
| Text.StrLessIrreflexive | wpd.py:278-283 | `<` on `str` is irreflexive |
| Text.StrLessAsymmetric | wpd.py:278-283 | `<` on `str` never holds both ways |
| Text.StrLessTransitive | wpd.py:278-283 | `<` on `str` is transitive |
| Text.StrLessTotal | wpd.py:278-285 | two different strings are ordered one way or the other |
| Ordering.Tier | wpd.py:270-271 | the tier index is in range and names the file's tier |
| Ordering.CompareFiles | wpd.py:252-285 | the comparator only answers `-1`, `0` or `1` |
| Ordering.CompareIsKeyOrder | wpd.py:252-285 | the comparator is the comparison of the key "position in `PREDEFINED_ORDER`" for listed files, ranked ahead of "(tier, basename)" for the rest, in all three outcomes |
| Ordering.CompareReflexive | wpd.py:252-285 | a file compares level with itself |
| Ordering.CompareAntisymmetric | wpd.py:252-285 | swapping the arguments negates the result |
| Ordering.CompareTransitive | wpd.py:252-285 | "not after" is transitive, and strict when either step is strict |
| Ordering.PredefinedFirst | wpd.py:263-266 | a listed file sorts before an unlisted one in both argument orders, whatever the tiers |
| Ordering.TierThenName | wpd.py:268-285 | between unlisted files the lower tier comes first; equal tiers order by ascending basename; the result is `0` exactly when tier and basename are equal |
| Ordering.CompareFilesIsTotalPreorder | wpd.py:248-285 | the comparator satisfies the laws a sort by `cmp_to_key` needs |
| Sorting.SortPermutes | wpd.py:248-250 | sorting yields a permutation of the input |
| Sorting.SortIsSorted | wpd.py:248-250 | the result has no element that sorts after one following it |
| Sorting.SortIsStable | wpd.py:248-250 | elements that compare level keep their relative order |
| Sorting.SortedUnchanged | wpd.py:248-250 | an already sorted list is left as it is |
| Sorting.SortIdempotent | wpd.py:248-250 | sorting twice is sorting once |
| Sorting.StableSortUnique | wpd.py:248-250 | every sorted, level-order-preserving rearrangement is this sort's result, so it coincides with the library's stable sort |
| Collection.ProtocolCollection.constructor | wpd.py:234-238 | a new collection has empty common fields and no files |
| Collection.ProtocolCollection.SortProtocolFiles | wpd.py:248-250 | the new list is the sort of the old one: a permutation, sorted, stable, with the common fields untouched |
| Collection.SortFilesLaws | wpd.py:248-285 | for protocol files the sort is a sorted, stable permutation and idempotent |
| Collection.SortedFileLayout | wpd.py:248-285 | in a sorted list every listed file precedes every unlisted one, listed files follow their `PREDEFINED_ORDER` position, unlisted files come in non-decreasing tier order, and within one tier in non-decreasing name order |
| Collection.PredefinedFileSortsFirst | wpd.py:248-266 | a listed file ends up first whichever order two files arrive in |
| Collection.TiersSortInPrecedenceOrder | wpd.py:248-285 | unlisted files arriving as unstable, stable, staging sort to stable, staging, unstable |
| Collection.GenerateProtocolCollection | wpd.py:566-577 | a fresh collection whose files are exactly the non-`None` builder results, in document order, with empty common fields |
| Elements.WithTag | wpd.py:37 | selection never yields more elements than there are children |
| Elements.WithTagMembers | wpd.py:37 | an element is selected exactly when it is a child with that tag |
| Elements.WithTagAppend | wpd.py:37 | selection from two runs of children is the two selections in order |
| Elements.WithTagAll | wpd.py:37 | when every child has the tag, selection returns the children unchanged |
| Builder.Defaults | wpd.py:34 | absent attributes take `""` (name), `'0'` (version), `'(no name)'`/`'(no type)'`/`'(no interface)'`/`'(no summary)'` (args) and `'(no name)'`/`'(no value)'`/`'(no summary)'` (entries); present ones are kept as written |
| Builder.DescriptionStripped | wpd.py:40-45 | description text and summary never start or end with whitespace; a missing text or summary becomes `""` |
| Builder.CommonFieldsFromChildren | wpd.py:36-61 | one trimmed description per `description` child and one verbatim copyright per `copyright` child, by index |
| Builder.ChildrenInOrder | wpd.py:599-645 | every list the builder fills (arguments, entries, requests, events, enums, interfaces, descriptions, copyrights) follows document order: two runs of children give the two results concatenated |
| Builder.ProtocolFileOfRoot | wpd.py:580-589 | `None` exactly when the root is not `protocol`; otherwise the file has the document's names and one protocol built from the root |
| Lists.PresentAppend | wpd.py:572-575 | keeping only the present results of two runs gives the two kept runs in order |
| Lists.PresentMembership | wpd.py:572-575 | a value is kept exactly when some element's result is that value |
| Lists.PresentAllSome | wpd.py:572-575 | when every result is present nothing is dropped and positions correspond |
| Builder.CollectFiles | wpd.py:566-577 | the collection never has more files than there are documents |
| Builder.CollectFilesAppend | wpd.py:572-575 | collecting two runs of documents gives the two results in order |
| Builder.CollectFilesSingle | wpd.py:572-575 | a document contributes its file when its root is `protocol`, and nothing otherwise |
| Builder.CollectFilesMembership | wpd.py:572-575 | a file is collected exactly when some document yields it |
| Builder.CollectFilesAllProtocol | wpd.py:572-575 | when every root is `protocol`, nothing is dropped and the i-th file comes from the i-th document |
| Builder.DescriptionsFromElements | wpd.py:36-47 | the description loop yields one trimmed `Description` per `description` element, in order |
| Builder.ApplyCommonFieldsToObjectFromElement | wpd.py:32-61 | the loops produce the name, the trimmed descriptions and the verbatim copyrights in child order |
| Builder.ApplyArgsToObject | wpd.py:164-173 | the arguments grow by one argument per `arg` child, appended in order; nothing else changes |
| Builder.BuildMessage | wpd.py:613-626 | a request or event gets its common fields, then its arguments |
| Builder.BuildMessages | wpd.py:613-626 | one message per `request` (or `event`) child, in order |
| Builder.BuildEnum | wpd.py:628-643 | an enum gets its common fields, then one entry per `entry` child with its defaults, in order |
| Builder.BuildInterface | wpd.py:601-645 | an interface gets its common fields, its version, then its requests, events and enums in child order |
| Builder.BuildProtocol | wpd.py:592-647 | a protocol gets its common fields, then one interface per `interface` child, in order |
| Builder.GenerateProtocolFileForParsed | wpd.py:580-649 | `None` for a non-`protocol` root, else the file with one protocol per root |
| SimpleStruct.FileKeys | wpd.py:660-668 | a `protocol_file` node holds the keys `basename, dirname, protocols`, in that order |
| SimpleStruct.ProtocolKeys | wpd.py:670-680 | a protocol node holds the keys `name, descriptions, interfaces`, in that order |
| SimpleStruct.InterfaceKeys | wpd.py:682-740 | an interface node holds the keys `name, descriptions, version, requests, events, enums`, in that order |
| SimpleStruct.MessageKeys | wpd.py:697-704 | a request or event node holds the keys `name, descriptions, args`, in that order |
| SimpleStruct.EnumKeys | wpd.py:729-736 | an enum node holds the keys `name, descriptions, entries`, in that order |
| SimpleStruct.ArgKeys | wpd.py:184-187 | an argument node holds the keys `name, type, interface, summary`, in that order |
| SimpleStruct.EntryKeys | wpd.py:202-204 | an entry node holds the keys `name, value, summary`, in that order |
| SimpleStruct.FilesRoundTrip | wpd.py:652-742 | reading the flat form back gives every file, protocol, interface, message, enum, argument and entry in order, with every field intact except the copyrights, which the flat form drops |
| SimpleStruct.FileRoundTrip | wpd.py:660-668 | one `protocol_file` entry reads back as its file without copyrights |
| SimpleStruct.ProtocolRoundTrip | wpd.py:670-680 | a protocol node reads back as its protocol without copyrights |
| SimpleStruct.InterfaceRoundTrip | wpd.py:682-740 | an interface node reads back as its interface without copyrights |
| SimpleStruct.MessageRoundTrip | wpd.py:697-704 | a request or event node reads back as its message without copyrights |
| SimpleStruct.EnumRoundTrip | wpd.py:729-736 | an enum node reads back as its enum without copyrights |
| SimpleStruct.CommonRoundTrip | wpd.py:211-216 | the leading `name` and `descriptions` pairs read back as the common fields without copyrights |
| SimpleStruct.ArgumentsSimpleStruct | wpd.py:176-191 | the loop gives one node per argument, in order |
| SimpleStruct.EntriesSimpleStruct | wpd.py:194-208 | the loop gives one node per entry, in order |
| SimpleStruct.CommonFieldsFromObjToSimpleStruct | wpd.py:211-216 | the list grows by the `name` pair and the `descriptions` pair, each description as `[summary, text]` |
| SimpleStruct.MessageSimpleStruct | wpd.py:697-704 | a request or event becomes its common pairs followed by `args` |
| SimpleStruct.MessagesSimpleStruct | wpd.py:692-720 | one node per request (or event), in order |
| SimpleStruct.EnumSimpleStruct | wpd.py:729-736 | an enum becomes its common pairs followed by `entries` |
| SimpleStruct.InterfaceSimpleStruct | wpd.py:684-740 | an interface becomes its common pairs, `version`, `requests`, `events`, `enums` |
| SimpleStruct.ProtocolSimpleStruct | wpd.py:670-680 | a protocol becomes its common pairs followed by `interfaces` |
| SimpleStruct.FileSimpleStruct | wpd.py:661-668 | a file becomes `basename`, `dirname`, `protocols` |
| SimpleStruct.GenerateSimpleStruct | wpd.py:652-742 | one `protocol_file` entry per file of the collection, in the collection's order |
| Keys.ExcludedIsSegment | wpd.py:1002-1003 | a key is dropped exactly when `tests` occurs in it as a whole `/`-segment |
| Keys.ExcludedKeyName | wpd.py:387 | for a key `dirname/basename`, it is dropped exactly when the directory has a `tests` segment or the file is named `tests` |

## Left out

- File discovery (`find_all_xml_files`): directory traversal through the file
  system.
- Reading and parsing files (`parse_xml`): file I/O, the XML parser, its
  failure handling and the `relpath` against the program's own location. The
  model starts from an already-parsed `Element` per document.
- The driver (`main`, `print_help`): command-line handling, printing and file
  writes. Only the `tests` key rule it applies is modelled. As written, `-o`
  is never honoured because the option is compared against `'-o:'`. The
  `c`/`c++` target branch is unreachable because the accepted targets exclude
  it.
- HTML generation, the YAML and JSON wrappers and the empty C/C++ stub: these
  are rendering through third-party libraries.
- `getProtoByName`: it iterates a `ProtocolFile` object directly, which is not
  iterable, so it fails on any collection with files.
- The commented-out sorters and `DATA_TYPES`: dead code, and a list that
  nothing reads.
- `Collection.ProtocolCollection.SortProtocolFiles`: `list.sort` is Timsort.
  Here it is the stable insertion sort `Sorting.SortBy`.
  `Sorting.StableSortUnique` shows that every stable sort under this
  comparator gives the same list.
- `Builder.CollectFiles`: the source iterates a dictionary of parsed
  documents. Here it is a sequence in the dictionary's insertion order, so
  key uniqueness is not modelled.
- Entity objects are values: the builder's in-place appends to a fresh
  object's lists are modelled as building new values.
  `SimpleStruct.GenerateSimpleStruct` appends a child list to its parent
  before filling it. Here each child is built first and appended after;
  the final contents are the same, and the aliasing is not modelled.
- Entity inheritance from `CommonFields` is modelled by composition: each
  entity has a `common` field. `Request` and `Event` are both `Message`,
  told apart by the interface list that holds them.
- The flat form's leaf values are strings. Serialising it to YAML or JSON is
  not part of this model.
