# go-ws: configuration mapping, rotating logs and message routing

A model of the parts of this repository where a small change can break something far away: the lookup of inherited
configuration values, the struct-tag language and the unmarshaller that obeys it, the field-info trees that drive
key canonicalisation, the rotating logger with its queue and its backups, the rate limiter of the error log, and the
hub that splits a message by server.

`dafny verify dfyconfig.toml` checks the whole project.

| file | what it models |
|---|---|
| `Wrappers.dfy`, `Strings.dfy`, `Values.dfy`, `Types.dfy` | results, Go's `strings`, decoded values, type descriptors |
| `Valuer.dfy` | the wrappers of `core/mapping/valuer.go`, and lookups on a configuration taken as a value |
| `Stores.dfy`, `SharedLookup.dfy` | maps in memory, and the lookups that extend them in place |
| `SharedOverlay.dfy`, `SharedMeaning.dfy` | when such lookups keep showing the overlay of the original levels, and that this is the overlay on values |
| `SharedEffects.dfy`, `SharedExamples.dfy`, `SharedRun.dfy` | what inherited lookups leave behind for others; concrete configurations and a whole run |
| `TagScanner.dfy`, `Tags.dfy`, `TagPrinter.dfy` | `parseSegments`, the options of a tag, and a printer for tags |
| `Unmarshal.dfy`, `StructLoops.dfy`, `Embedded.dfy` | the unmarshaller as an interpreter over types, and its loops writing in place |
| `InputEffects.dfy`, `ByValue.dfy` | what unmarshalling does to the input's maps, and that without inheritance only their content counts |
| `FieldOrder.dfy`, `Reordering.dfy` | when the order of a struct's fields does not matter |
| `Required.dfy` | the static analysis against the interpreter |
| `Obeys.dfy`, `ObeysExamples.dfy` | what success guarantees, and what it does not |
| `FieldInfos.dfy`, `FieldTree.dfy` | field-info trees as values and as mutable objects |
| `Canonical.dfy`, `CanonicalOrder.dfy`, `CanonicalRuns.dfy` | canonical keys, and when the iteration order decides about them |
| `RotateNames.dfy`, `RotateLogger.dfy`, `RotateFailures.dfy` | backup names and retention; rotation; rotation with failing system calls |
| `LoggerProtocol.dfy` | the logger's goroutines |
| `LimitedExecutor.dfy`, `Hub.dfy` | the rate limiter; grouping and delivery of messages |

Code that computes is a function, and laws about it are lemmas. Code that works step by step is a method or a class
whose contracts tie it to such a function: `ParseSegments` to `Segments`, `FieldInfo` to `Build`, `Logger` to `Write`,
`UnmarshalInto` to `ProcessFields`, `Maps.Value` to `Find`. Goroutines are the steps of a state machine. The input's
maps are shared memory that the interpreter passes on from field to field, since an inherited lookup extends them. The
iteration order of a Go map is an arbitrary choice in the loop, or a parameter where it decides about the result.

## Findings

Places where the code does not do what its documentation or its other half leads one to expect. Each is a lemma.

- A tag without separators that unescapes to nothing, such as a single backslash, makes `doParseKeyAndOptions` index an
  empty slice (`PanicsExactly`, `BackslashPanics`).
- An inherited lookup extends the maps it finds on its way. A field next to a nested struct can so be filled with a value
  that only the nested struct inherits, and whether unmarshalling succeeds can depend on the order in which a struct
  lists its fields (`SiblingSeesMerge`, `FieldOrderDecides`). Where no map serves two purposes, a lookup that does not
  inherit is left alone exactly if no inherited lookup of its key that starts at or below its level comes by, or if the
  levels above have nothing to add (`PlainUnaffectedExactly`). For types in which no field inherits or has a dotted key,
  the input is not changed (`InputUntouched`), nothing but its content counts (`ResultByValue`), and fields may be listed
  in any order at any depth (`Reordering.OrderIsIrrelevant`); for all types they may as long as none of them changes the
  input (`UnwrittenOrder`).
- If a map that is inherited into is itself a level, as the struct entered through an inherited field is, inherited
  lookups further in change too (`LevelsMustNotBeValues`). They keep showing the original overlay exactly if the maps
  have a completion in which every asked key is bound to it (`KeepsExactly`).
- A field that is optional in dependence on another one loses its `range` and its `inherit` as soon as it has a value
  (`ContextExactly`, `DependentOutOfRange`).
- A duration filled from a text is checked against neither `options` nor `range`, and a json.Number for a duration
  panics (`DurationUnchecked`, `DurationOutsideOptions`).
- `implicitValueRequiredStruct` takes the `default` of an embedded struct for a value, but unmarshalling never looks at
  it (`EmbeddedFromNothing`, `AnalysisMissesEmbeddedDefault`). What can be unmarshalled from nothing is told by tags and
  types alone (`NeedlessExactly`), and the analysis is right about a type exactly if its embedded structs with options
  need nothing themselves (`FillsFromNothingExactly`).
- A field of type int64 cannot be filled from its environment variable: a text that is no duration is an error, and one
  that is panics (`EnvAcceptedExactly`).
- A field that is a pointer to a slice takes no list but one of nulls (`SlicePointerExactly`).
- Two input keys that fold to the same field: which one survives depends on map iteration order (`OrderMatters`), and the
  order is irrelevant exactly if such keys have the same canonical values, at every depth (`OrderMattersExactly`).
- The daily rule and the logger read the clock separately. If midnight falls between the two readings, two rotations use
  the same backup name and the first backup is lost (`DailySafeExactly`).
- `Write` can report success for a message that nobody will ever take from the channel (`AcceptedAfterClose`): exactly if
  it is accepted after the worker has stopped (`LostExactly`).
- A rotation that fails leaves the logger without a file, and every write is dropped until a rotation succeeds
  (`ConservedUpToDrops`, `ClosedDrops`).
- `RemoveClient` leaves a nil client behind, on which `ReceiveMessage` panics (`Hub.Hub.ReceiveMessage`). A client is
  removed before its lease is revoked, so that a message to it still goes to the server that removed it
  (`RegisteredIsInPart`); and after that it goes to the server of another client whose id it is a prefix of. A part
  brings its server down exactly if the first key in etcd that one of the server's removed targets is a prefix of leads
  there (`RemovedTargetsPanic`).
- `SendMessage` asks etcd by prefix. That is harmless for clients that are registered: their own key comes first
  (`OnlineIsFound`).

## Model

| member | source | states |
|---|---|---|
| Valuers.ParentIsSmaller | core/mapping/valuer.go:49-59 | Rewrapping the ancestors on every call never deepens a valuer and always removes one ancestor, so that a recursive lookup ends. |
| Valuers.ParentChain | core/mapping/valuer.go:102-112 | However often it was rewrapped, the parent stands for exactly the levels around the nearest one. |
| Valuers.CreateValuerChain | core/mapping/unmarshaler.go:1062-1074 | Choosing a simple or a recursive valuer changes how far a lookup sees, not the levels it stands for. |
| Valuers.ReachedChain | core/mapping/unmarshaler.go:590-599 | The valuer reached by any descent stands for the levels passed on the way, nearest first. |
| ValuerLookup.Filled | core/mapping/valuer.go:93-99 | The nearer map keeps all its bindings and gains just the keys it lacks. |
| ValuerLookup.LookupIsOverlay | core/mapping/valuer.go:61-100 | A lookup that visits the same ancestors many times computes the one-pass overlay of the plain levels. |
| ValuerLookup.OverlayAbsorbs | core/mapping/valuer.go:78-99 | Laying the outer overlay under the whole overlay again changes nothing. |
| ValuerLookup.InheritedLookup | core/mapping/unmarshaler.go:810-811 | For every descent from a root map whose maps nothing has been written to yet, an inherited lookup is the overlay of the levels passed and a plain one sees its own level only. |
| ValuerLookup.DottedLookup | core/mapping/unmarshaler.go:1144-1163 | The tail of a dotted key is always resolved through the overlay; only its head depends on the `inherit` option. |
| ValuerLookup.NearestWins | core/mapping/valuer.go:61-100 | A sub-key of an inherited map is present exactly if some level offers it before a non-map cuts the chain, and has the value of the nearest such level. |
| SharedLookup.Maps.FillMissing | core/mapping/valuer.go:93-97 | The merge loop adds the missing keys and overwrites none, whatever order the keys come in. |
| SharedLookup.Maps.Value | core/mapping/valuer.go:61-100 | The recursive lookup with its writes computes the specified lookup and leaves the specified maps, however maps are shared. |
| SharedLookup.FindExtends | core/mapping/valuer.go:93-97 | However maps are shared, a lookup makes no new maps and never changes or removes a binding. |
| SharedOverlay.MergeAgain | core/mapping/valuer.go:78-99 | Once the map found is complete, filling it from the levels above again writes nothing. |
| SharedOverlay.FindShows | core/mapping/valuer.go:63-100 | While the maps lie between the original ones and a completion, an inherited lookup, which goes over the same ancestors many times, finds what the overlay of the original levels says and leaves the maps between. |
| SharedOverlay.KeepsExactly | core/mapping/valuer.go:93-97 | For all maps, shared in whatever way: after any sequence of inherited lookups every inherited lookup shows the overlay of the levels as they were, if and only if the maps have a completion that binds every asked key to its overlay. |
| SharedMeaning.LookupsMean | core/mapping/valuer.go:63-100 | Then inherited lookups in memory, after any others, find what the same valuer finds on the configuration as a value. |
| SharedEffects.SeparateKeeps | core/mapping/valuer.go:63-100 | Different maps for different places, none of them a level, always have such a completion. |
| SharedEffects.FindFills | core/mapping/valuer.go:93-97 | Where no map serves two purposes, as two places of one key or as a place and a level: an inherited lookup extends exactly the maps at the places it comes to before a value that is no map cuts it off, each to the overlay from there on. |
| SharedEffects.PlainAfter | core/mapping/valuer.go:61-100 | Where no map serves two purposes, after any sequence of inherited lookups, a lookup that does not inherit finds its own level's binding; a map found has the content of the overlay if some lookup has come by, and its original content otherwise. |
| SharedEffects.PlainUnaffectedExactly | core/mapping/valuer.go:93-97 | Where no map serves two purposes, a plainly looked up map is unchanged if and only if no inherited lookup of its key from its level or below has come by without being cut off, or the levels above have nothing to add. |
| SharedExamples.SiblingSeesMerge | core/mapping/valuer.go:93-97 | A concrete configuration in which a plain lookup finds only a host before, and host and port after, an inherited lookup by a struct nested next to it. |
| SharedRun.FieldOrderDecides | core/mapping/unmarshaler.go:1011-1020 | On that configuration, the same struct type is unmarshalled or refused depending on which of two fields comes first. |
| Reordering.OrderIsIrrelevant | core/mapping/unmarshaler.go:1011-1020 | For every struct type in which no field at any depth inherits or has a dotted key, every reordering of fields at every depth, and every configuration: unmarshalling succeeds in both orders or in neither, and fills each field with the same. |
| Reordering.UnwrittenOrder | core/mapping/unmarshaler.go:1011-1020 | For all struct types, any order of the fields yields success and the same cells, or no success, as long as no field on its own changes the input. |
| ByValue.ResultByValue | core/mapping/unmarshaler.go:992-1021 | For every struct type in which no field inherits or has a dotted key, two inputs that stand for the same configuration have the same result, wherever their maps are in memory. |
| SharedExamples.LevelsMustNotBeValues | core/mapping/valuer.go:93-97 | A configuration and a way down it, through an inherited field, in which a lookup extends a map that is then a level: a later lookup finds a value that no level had, and the maps have no completion. |
| TagScanner.ParseSegments | core/mapping/utils.go:441-488 | The scanning loop, with its buffer and two flags, returns the segments that the specification folds out of the text. |
| TagScanner.SegmentsOfListed | core/mapping/utils.go:441-488 | Escaping, joining and scanning gives back every list of trimmed texts. |
| TagScanner.SegmentsAreTrimmed | core/mapping/utils.go:458-461 | Nothing but trimmed texts comes out of the scanner. |
| TagScanner.GroupedStep | core/mapping/utils.go:453-478 | Being inside a group, defined by the nearest unescaped brackets, changes exactly as the scanner's flag does. |
| TagScanner.ScanMeaning | core/mapping/utils.go:446-479 | After any prefix of any text the buffer and the flags are what the definitions by position say. |
| TagScanner.SegmentsAreBetweenSeparators | core/mapping/utils.go:441-488 | For every text a comma separates exactly if it is neither escaped nor inside an open group, and the result is the unescaped, trimmed text between the separators. |
| Tags.DoParseKeyAndOptions | core/mapping/utils.go:153-171 | The loop over the options computes the specified parse, including its errors and its panic. |
| Tags.PanicsExactly | core/mapping/utils.go:154-155 | A tag brings the parser down if and only if it has no separator and unescapes to nothing but spaces. |
| Tags.BackslashPanics | core/mapping/utils.go:154-155 | A single backslash is such a tag. |
| Tags.OptionsCommute | core/mapping/utils.go:363-416 | Two options of different kinds can be read in either order, with the same options or a failure either way. |
| Tags.ReorderOptions | core/mapping/utils.go:162-168 | Reordering options of different kinds changes neither the result nor whether there is one. |
| TagPrinter.GroupedSegmentsBack | core/mapping/utils.go:251-259 | Escapes in a bracketed list survive the first pass and are removed by the second. |
| TagPrinter.RangeBack | core/mapping/utils.go:291-361 | A printed range, open or closed at either end, is parsed back, for any two numbers that the number format writes and reads back. |
| TagPrinter.TagRoundTrip | core/mapping/utils.go:153-171 | For every trimmed key and every set of options, printing a tag and parsing it gives back key and options; values must be trimmed and without `=`, list elements without brackets, and the ends of a range numbers that are written and read back. |
| StructLoops.UnmarshalInto | core/mapping/unmarshaler.go:1011-1020 | The loop over the fields writes into the struct and into the input's maps exactly what processing the fields yields, and stops with the first error. |
| StructLoops.CellsFieldwise | core/mapping/unmarshaler.go:1011-1020 | On success each field holds what processing it alone gives, on the input's maps as the fields before it have left them. |
| StructLoops.FirstErrorCounts | core/mapping/unmarshaler.go:1015-1017 | An error at one field is the error of the whole struct, whatever follows. |
| StructLoops.FillSliceInto | core/mapping/unmarshaler.go:148-183 | The loop that fills a new slice in place and keeps a flag computes the specified slice, null elements skipped. |
| StructLoops.GenerateMap | core/mapping/unmarshaler.go:343-421 | The loop over a map's keys, in the order in which they come, yields the map of converted values, or the error of the first value that fails. |
| StructLoops.ImplicitValueRequiredStruct | core/mapping/utils.go:190-221 | The loop with its early exits computes the recursive analysis. |
| InputEffects.InputOnlyGains | core/mapping/valuer.go:93-97 | For every type and input, unmarshalling changes or removes no binding of the input. |
| InputEffects.InputUntouched | core/mapping/unmarshaler.go:1011-1020 | Where no field at any depth inherits or has a dotted key, unmarshalling leaves the input as it is. |
| Embedded.CountersDecide | core/mapping/unmarshaler.go:536-560 | For any number of fields, the flag says whether any field has a value, and the counters agree exactly if every field that may not be missing has one. |
| Embedded.EmbeddedAllOrNothing | core/mapping/unmarshaler.go:528-567 | If an optional embedded struct is unmarshalled, either none of its fields has a value and it is untouched, or every field that may not be missing has one. |
| Embedded.EmbeddedRefusedExactly | core/mapping/unmarshaler.go:562-564 | Once its fields can be processed, exactly the half-filled embedded structs are refused. |
| Embedded.ProcessEmbeddedOptional | core/mapping/unmarshaler.go:528-567 | The loop with its flag and counters writes and returns what the specification says. |
| Required.NeedlessExactly | core/mapping/unmarshaler.go:906-961 | For every struct type, with defaults that fit and no environment: it can be unmarshalled from the empty map if and only if, by tags and types alone, the options of each field can be read when there are no values, and the field is skipped, optional, a map, or has a default, or is a struct that needs nothing and that is embedded or let off by the analysis. |
| Required.FillsFromNothingExactly | core/mapping/unmarshaler.go:939-953 | So a struct type that the analysis does not require a value for can be if and only if, at every depth, its embedded structs with options need nothing: by their own fields if they are not optional, and else if those fields' options can be read. |
| Required.NotRequiredFillsFromNothing | core/mapping/unmarshaler.go:939-953 | So it always is if embedded structs carry no options. |
| Required.RequiredExactly | core/mapping/utils.go:190-221 | The analysis says no if and only if the empty map will do, on types whose fields are not skipped, and are no maps, no pointers to structs, no structs whose options do not make them optional, and no optional embedded structs with options that cannot be read. |
| Required.RequiredFieldwise | core/mapping/utils.go:190-221 | The analysis lets a struct off exactly if it lets each field off. |
| Required.NegatedIsOptional | core/mapping/utils.go:373-376 | A tag that makes a field depend on another one always makes it optional. |
| Required.EmbeddedFromNothing | core/mapping/unmarshaler.go:474-567 | An embedded struct that is not optional can do without a value exactly if its struct type can, whatever default it has; an optional one if none of its fields' options fail. |
| Required.AnalysisMissesEmbeddedDefault | core/mapping/utils.go:213-214 | A concrete type that the analysis lets off and that cannot be unmarshalled from nothing. |
| Obeys.ContextExactly | core/mapping/fieldoptions.go:69-112 | When options in context are an error, and otherwise what they are: a dependent field with a value is required and has lost its range and inheritance. |
| Obeys.UnmarshalledObeys | core/mapping/unmarshaler.go:992-1021 | For every struct type and input, when unmarshalling succeeds every field obeys its tag on the input's maps as the fields before it have left them, and nothing required is missing there, through embedded and nested structs, slices and maps. |
| Obeys.ScalarObeyed | core/mapping/unmarshaler.go:633-705 | By every conversion path, a scalar that is filled holds the given value, which is one of the options and within the range. |
| Obeys.NumericAcceptedExactly | core/mapping/unmarshaler.go:654-705 | A number or text is accepted for a numeric field if and only if it converts to its kind, is one of the options and lies within the range. |
| Obeys.OptionalObeyed | core/mapping/unmarshaler.go:528-567 | The same for an optional embedded struct, whose fields without a value are all optional. |
| Obeys.SliceObeyed | core/mapping/unmarshaler.go:131-186 | The same for the structs in a slice; only null elements and lists of nulls are left out. |
| Obeys.MapObeyed | core/mapping/unmarshaler.go:331-422 | The same for the structs in a map, which has exactly the keys of the input. |
| Obeys.WithoutValueObeyed | core/mapping/unmarshaler.go:906-961 | A field without a value and a default is optional, or a map, or a struct that needs nothing. |
| Obeys.DefaultObeyed | core/mapping/unmarshaler.go:906-921 | A default that is used is held as its text converts, for a list element by element, without regard to options and range. |
| Obeys.EnvObeyed | core/mapping/unmarshaler.go:752-780 | A field filled from its environment variable holds the converted text, which is one of the options and, for a number that is no duration, within the range. |
| Obeys.EnvAcceptedExactly | core/mapping/unmarshaler.go:752-780 | For every type of field, which texts of a variable are accepted: one of the options that is a bool, a duration, any text, or a number of the kind within the range; and a field of type int64 accepts none, and panics exactly on a duration. |
| ObeysExamples.DurationUnchecked | core/mapping/unmarshaler.go:624-625 | A duration is set from its text whatever options and range say, and a json.Number brings it down. |
| ObeysExamples.DurationOutsideOptions | core/mapping/unmarshaler.go:624-625 | A concrete duration that is none of its options and is accepted. |
| ObeysExamples.SlicePointerExactly | core/mapping/unmarshaler.go:131-186 | A pointer to a slice accepts a value that is not null if and only if it is a list of nulls that is not empty, and stays empty then. |
| ObeysExamples.DependentRangeIgnored | core/mapping/fieldoptions.go:101-111 | A dependent field with a value takes any number of its kind, whatever range its tag gives. |
| ObeysExamples.DependentOutOfRange | core/mapping/fieldoptions.go:101-111 | A concrete tag with a range, and a number outside of it that is accepted. |
| FieldInfos.BuildWellFormed | core/conf/config.go:30-35 | In every tree that is built, no node has both a map field and children, and all keys are lower case. |
| FieldInfos.CombineCommutes | core/conf/config.go:138-152 | Merging two families of fields does not depend on which comes first. |
| FieldInfos.CombineAssociates | core/conf/config.go:138-152 | Whether three families can be merged, and the outcome, do not depend on the grouping. |
| FieldInfos.ProcessLast | core/conf/config.go:246-273 | Any field of a struct can be processed last. |
| FieldInfos.BuildReordered | core/conf/config.go:194-273 | Whether a tree can be built, and the tree, do not depend on the order of fields in structs at any depth. |
| FieldInfos.CombinePaths | core/conf/config.go:292-307 | Merging puts the leaf paths of two families together and succeeds only if they share none. |
| FieldInfos.LeavesPartitioned | core/conf/config.go:246-273 | The leaf paths of a struct's tree are the disjoint union of what its fields contribute: none lost, none claimed twice. |
| FieldTree.FieldInfo.AddOrMergeFields | core/conf/config.go:138-152 | Insertion in place succeeds exactly when the specification does, yields its tree, and keeps the nodes an unshared tree. |
| FieldTree.FieldInfo.MergeFields | core/conf/config.go:292-307 | The merge loop succeeds exactly when both nodes are branches without a common key, in whatever order the keys come, and moves the children over. |
| FieldTree.Flatten | core/conf/config.go:162-166 | Moving the children of an embedded struct up, in any order, yields the merged tree or fails exactly when there is a conflict. |
| FieldTree.BuildChild | core/conf/config.go:211-241 | The node of a field that is not flattened: a map field, a leaf, or the tree of its type, from fresh nodes. |
| FieldTree.BuildFieldInfo | core/conf/config.go:154-244 | One field, embedded or named, adds exactly its contribution. |
| FieldTree.BuildStructFieldsInfo | core/conf/config.go:246-273 | The loop over the fields builds the specified tree from fresh nodes, or fails exactly when it should. |
| FieldTree.BuildFieldsInfo | core/conf/config.go:194-209 | The same for any type. |
| FieldTree.CombineStep | core/conf/config.go:162-166 | Adding the children one at a time, in any order, ends at the merge of all, and fails early only if the merge fails. |
| Canonical.ToLowerCaseInterface | core/conf/config.go:313-326 | The rewrite yields a canonical form of its input. |
| Canonical.ToLowerCaseKeyMap | core/conf/config.go:328-351 | Whatever order the keys come in, each result key holds the rewritten value of one of the keys stored under it. |
| Canonical.OrderDoesNotMatter | core/conf/config.go:328-351 | If no two keys name the same field, the iteration order makes no difference. |
| Canonical.OrderMatters | core/conf/config.go:338-340 | With two keys for one field there are two different canonical forms. |
| CanonicalOrder.OneFormExactly | core/conf/config.go:328-351 | For every input: there is one canonical form only if and only if any two keys of one map that are stored under the same key have the same canonical values, recursively. |
| CanonicalRuns.ResultsExactly | core/conf/config.go:328-351 | With the order in which each map's keys come as a parameter: the canonical forms are exactly the results of the loop in some order. |
| CanonicalRuns.OrderMattersExactly | core/conf/config.go:328-351 | So every order yields the same result if and only if such keys have the same canonical values. |
| Canonical.Idempotent | core/conf/config.go:313-351 | A rewritten input is left as it is by another rewrite. |
| Canonical.MapKeysKept | core/conf/config.go:341-342 | Directly inside a map field every key is kept as it is. |
| Canonical.CaseDoesNotMatter | core/conf/config.go:313-351 | Two unambiguous inputs have the same canonical form if and only if they differ at most in the case of keys that name fields. |
| RotateNames.DateOrder | core/logx/rotatelogger.go:427-429 | Dates in the form of full-date, section 5.6 of RFC 3339, sort as texts as they do in the calendar. |
| RotateNames.InstantNames | core/logx/rotatelogger.go:431-433 | In one zone, timestamps are equal exactly for equal seconds. |
| Retention.OutdatedByDay | core/logx/rotatelogger.go:100-136 | The loop returns the names below the boundary name, in order, or none if nothing is to be deleted. |
| Retention.NameOrderIsDateOrder | core/logx/rotatelogger.go:118-131 | Comparing a backup's name with the boundary name compares dates, with or without the gzip suffix. |
| Retention.SelectsEarlierDates | core/logx/rotatelogger.go:100-136 | The daily rule selects exactly the backups dated before the boundary day. |
| Retention.SortStringsSorts | core/logx/rotatelogger.go:188-188 | The sorted list is sorted and has the same names. |
| Retention.OutdatedBySize | core/logx/rotatelogger.go:188-219 | The two loops over slice and map mark exactly the names before the first one that is kept. |
| Retention.KeepsLongestSuffix | core/logx/rotatelogger.go:192-213 | A suffix of the sorted list is within the limits on number and age if and only if it is part of what the rule keeps. |
| Retention.DeletingOnceIsEnough | core/logx/rotatelogger.go:332-339 | Once the outdated files are deleted, the same call finds nothing more to delete. |
| RotateLogger.NamesTellStampsApart | core/logx/rotatelogger.go:90-92 | A rule makes the same backup name for two times exactly if they are of the same day, or for a size rule the same second. |
| RotateLogger.Logger.constructor | core/logx/rotatelogger.go:286-311 | Initialisation opens or creates the live file, knows its size, and fixes the first backup name. |
| RotateLogger.Logger.DoRotate | core/logx/rotatelogger.go:349-375 | Rotation does to the fields and the files what the specification says, for every combination of failing system calls. |
| RotateLogger.Logger.DoWrite | core/logx/rotatelogger.go:402-415 | So does a write, with or without a rotation. |
| RotateLogger.Effect | core/logx/rotatelogger.go:349-375 | What one successful write does to every file: the backup takes over the old content, no other file changes. |
| RotateLogger.BytesConserved | core/logx/rotatelogger.go:402-415 | In every run, the rotated contents in order followed by the live file are the initial content followed by everything written. |
| RotateLogger.NothingIsLost | core/logx/rotatelogger.go:349-375 | As long as no rename hits an existing file, every rotated file is still on disk under its name with its content, and no other file has changed. |
| RotateLogger.OverwritesExactly | core/logx/rotatelogger.go:358-364 | A run overwrites a file exactly if a backup name it uses exists beforehand or is used twice. |
| RotateLogger.DailyIncreasing | core/logx/rotatelogger.go:90-97 | With a clock that does not go backwards, the dates of the daily rule's backups strictly increase. |
| RotateLogger.DailyOverwritesNothing | core/logx/rotatelogger.go:349-375 | Such a run overwrites nothing if no backup is dated on or after the day of the first backup name. |
| RotateLogger.DailySafeExactly | core/logx/rotatelogger.go:79-87 | A new logger with the daily rule is safe in every run if and only if rule and logger are created on the same day. |
| RotateLogger.SizeSafeExactly | core/logx/rotatelogger.go:158-163 | A run of the size rule overwrites a file if and only if two backup names are made in the same second or one exists beforehand. |
| RotateLogger.LiveFileBounded | core/logx/rotatelogger.go:222-224 | With a positive limit, the live file exceeds it after a write only if that write alone does. |
| RotateFailures.OneWrite | core/logx/rotatelogger.go:349-375 | Whichever system calls fail, a write and its rotation lose nothing but the written bytes, and those exactly if no file is open for them. |
| RotateFailures.ConservedUpToDrops | core/logx/rotatelogger.go:402-415 | In every run with any failures, what was moved to backups and the live file hold the initial content and exactly the writes that reached a file, in order. |
| RotateFailures.ClosedDrops | core/logx/rotatelogger.go:402-415 | Without an open file, a write reaches a file exactly if it rotates, and renaming and creating succeed. |
| LoggerProtocol.Preserved | core/logx/rotatelogger.go:377-400 | Every step of writers, worker and `Close` keeps the invariant: accepted messages are those handled followed by those queued. |
| LoggerProtocol.InvariantHolds | core/logx/rotatelogger.go:250-276 | So the invariant holds in every reachable state of every interleaving. |
| LoggerProtocol.HandledThenQueued | core/logx/rotatelogger.go:268-276 | In every reachable state, the messages handed to the file followed by the queue are the accepted messages in order, and the bytes on disk are theirs. |
| LoggerProtocol.CloseLosesNothing | core/logx/rotatelogger.go:250-266 | When `Close` has returned, every message accepted before `done` was closed has been handed to the file, once and in order. |
| LoggerProtocol.StoppedIsForGood | core/logx/rotatelogger.go:387-396 | A stopped worker handles nothing more, and what is queued then stays queued. |
| LoggerProtocol.LostExactly | core/logx/rotatelogger.go:268-276 | In every run whose worker has stopped, the k-th accepted message is handled if and only if it was accepted while the worker had not stopped, and then it is the k-th handled. |
| LoggerProtocol.AcceptedAfterClose | core/logx/rotatelogger.go:268-276 | A run in which `Write` accepts a message after `Close` has returned. |
| LoggerProtocol.SilentRunsEnd | core/logx/rotatelogger.go:387-396 | Once `done` is closed, every run without accepted messages has at most as many steps of the worker as messages are queued and two more, and has all of them exactly if the worker has stopped. |
| LoggerProtocol.WorkerIsNeverStuck | core/logx/rotatelogger.go:387-396 | Until then the worker always has a step to make. |
| LoggerProtocol.WorkerDrains | core/logx/rotatelogger.go:387-396 | From a draining worker, a run that handles the whole queue in order and stops. |
| LimitedExecutor.LimitedExecutor.LogOrDiscard | core/logx/limitedexecutor.go:24-42 | One call executes or counts a discard, reports and resets the pending count, and wraps it at 32 bits, as specified. |
| LimitedExecutor.CallsAccountedFor | core/logx/limitedexecutor.go:30-41 | In every run the calls are the executions, the reported and the pending discards, and what was lost in wraps of the counter. |
| LimitedExecutor.CallsBalance | core/logx/limitedexecutor.go:31-36 | Calls equal executions plus reported plus pending discards if and only if the counter never wrapped. |
| LimitedExecutor.ExecutionsApart | core/logx/limitedexecutor.go:31-34 | Consecutive executions are more than the threshold apart. |
| LimitedExecutor.ExecutionsSpan | core/logx/limitedexecutor.go:31-34 | n executions, for n of at least 2, span more than n - 1 thresholds. |
| LimitedExecutor.DiscardedExactly | core/logx/limitedexecutor.go:31-32 | A call is discarded exactly if it comes within the threshold of the last execution. |
| Hub.SendMessage | hub/hub.go:84-111 | Nothing is published if a lookup fails; otherwise each server that some target is placed on gets its targets, in order, with the text and the source. |
| Hub.PlacedSomewhere | hub/hub.go:97-106 | A server has a part exactly if some target is placed on it, and that part is not empty. |
| Hub.Hub.ReceiveMessage | hub/hub.go:121-129 | Every connected client gets the message once for each time it is listed, up to the first target that was removed, which ends the call. |
| Hub.CopiesAreDeliveries | hub/hub.go:121-129 | What a connected client receives are its deliveries, each with the message's text and source. |
| Hub.OnlineIsFound | hub/hub.go:90-97 | A lookup by prefix finds the server of an online client, although longer ids may match too. |
| Hub.PlacedMembers | hub/hub.go:97-106 | A target is in a server's part exactly if the lookup places it there. |
| Hub.RemovedTargetsPanic | hub/hub.go:121-129 | For any registered and any removed clients: a part has a removed target, which brings its server down, if and only if the first key in etcd that some removed target is a prefix of belongs to that server. |
| Hub.FirstKey | hub/hub.go:90-97 | That key is the target's own if it is still registered, and a longer one otherwise. |
| Hub.RegisteredIsInPart | hub/hub.go:90-106 | As long as a target is registered, it is in the part of its own server and in no other, even if it has been removed there. |
| Hub.RoutingIsDirectDelivery | hub/hub.go:84-130 | Splitting by server and delivering per server, in any order, yields the same multiset of client, text and source as direct delivery to every online target. |

## Left out

- Library functions are parameters with the laws a lemma needs: strconv, `time.ParseDuration`, `Repr`, the environment, JSON decoding of texts into slices and maps, base64.
- Numbers are reals: rounding, NaN and float32 are not modelled. An integer and its text denote the same real.
- `TextUnmarshaler` and `json.Unmarshaler` hooks, fields of interface type, and self-referential types.
- The unmarshaller's options `WithDefault`, `WithFromArray`, `WithOpaqueKeys` and `WithCanonicalKeyFunc`.
- The caches: options by tag text, keys, required structs (so the tag key is fixed), and list defaults, which the source looks up by their text alone.
- Pointers as elements of slices and maps, pointers to pointers, and embedded pointers to non-structs. A pointer to a map that gets a value is a panic, as in the source; a pointer that is allocated for a slice and left empty is not told from nil.
- Nested structs, slices and maps are filled as values by the interpreter; writing in place is modelled for one struct and one slice at a time, in module StructLoops.
- The order in which a map's keys come is a parameter that depends on the key set alone, so that two maps with the same keys are gone through in the same order; keys that a map gains while it is gone through are not visited.
- ValuerLookup.InheritedLookup: the configuration is a value, so that writes by earlier lookups are not part of it; module SharedMeaning says when lookups in memory agree with it, and module SharedEffects what they see otherwise.
- Reordering.OrderIsIrrelevant: that no field inherits is sufficient and not necessary, since an inherited lookup may change what no other field reads; SharedEffects.PlainUnaffectedExactly is exact for a single lookup.
- SharedEffects.PlainAfter: maps that serve two purposes are left to SharedOverlay.KeepsExactly, which is about inherited lookups.
- Canonical.ToLowerCaseInterface: takes the input as a value, without sharing, and does not tell an empty list from the nil slice that the source returns for it.
- Error wording: an error is its kind.
- Lower-casing is that of ASCII letters.
- Retention.OutdatedByDay: the names found by the glob pattern, and the boundary's time, are parameters.
- RotateLogger.BytesConserved: runs in which all calls to the operating system succeed; RotateFailures.ConservedUpToDrops is about all others.
- RotateLogger.NothingIsLost: compression and deletion of outdated backups, which run in a goroutine of their own, are not interleaved with it.
- RotateLogger.DailySafeExactly: one fixed time zone, and years of four digits.
- The paths of `path/filepath`: a size rule's file name is given as base and extension.
- `Close` syncing and closing the file, and its `sync.Once`.
- LimitedExecutor.LimitedExecutor.LogOrDiscard: calls are sequential; races between the load and the store of the last time are not modelled.
- Hub.SendMessage: send and receive handlers, server-handler mode, nil messages, JSON and RabbitMQ; publishing is the resulting map.
- The etcd lease that `RegisterClient` goes on renewing.
- `hub/client.go` and its goroutines, `engine`, HTTP, JWT, and the log's formatting, levels and writers.
