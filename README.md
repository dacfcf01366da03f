# Silk workspace front end — a verified Dafny model

This project models the deterministic core of the Silk / eccenca DataIntegration web front end
(`workspace/` and `silk-react-components/`) in Dafny, and proves what that code promises.
One Dafny module stands for one source file; six shared modules (`Results`, `JsStrings`, `JsArrays`,
`Records`, `JsonValues`, `Sorting`) give the JavaScript semantics the others rely on:
string slicing, `split`, `trim`, `toLowerCase`, `indexOf`, arrays de-duplicated with `filter`,
and objects or `Map`s as ordered records (see Left out for the order of integer-like object keys).

What is modelled:

- **Rule-operator trees** (`RuleTree`, `RuleGraph`, `RuleOperators`, `RuleEditorTypings`, `RuleEditorModel`).
  The linking/transform rule editor flattens a value-input tree into editor nodes, children before parents.
  It converts the nodes back into a tree, and the two directions invert each other.
  It computes the root nodes, and it validates that there is one root reaching every node,
  with `findCycles` modelled as written.
  It also covers the allowed operator connections, the mapping of plugin metadata to operator specifications,
  the sidebar tabs, the `RuleValidationError` constructor, and the change-operation factories.
- **Translation-file scanner** (`I18nScanner`, module for `workspace/scripts/i18next-scanner.js`).
  It covers the lossless recursive JSON merge that throws on a conflict, the grouping of language files by
  language code, the per-namespace flush with `removeUnusedKeys`, and the choice and conversion of line endings.
- **Strings and paths**:
  - search highlighting (`Highlighter` and the older `SearchItem` variant), with regular-expression matching
    written out as leftmost match, first alternative first;
  - the word-aligned snippet of the operator sidebar (`RuleOperatorSidebar`);
  - thousands separators (`WorkspaceSelectors`);
  - the prefix name and IRI checks of the namespace dialog (`PrefixNew`), after productions [163s],
    [166s] and [167s] and the characters production [18] IRIREF excludes, in section 6.5 of W3C RDF 1.1 Turtle;
  - route building (`RouterOperations`, `StateRouterOperations`);
  - window titles and icon stacks (`PageHeader`, `ViewHeader`, `ItemDepiction`).
- **Store and component state**:
  - the Redux slices and reducer (`CommonSlice`, `GlobalSlice`, `GlobalReducers`);
  - the parameter diff and error maps of the linkage rule configuration (`LinkageRuleConfig`);
  - the flattened task configuration preview (`TaskConfigPreview`);
  - the parameter widget (`ParameterWidget`);
  - the recently-viewed and create-artefact dialogs (`RecentlyViewedModal`, `CreateArtefactModal`);
  - related-items paging (`RelatedItems`);
  - the mapping-suggestion table (`SuggestionList`);
  - the path auto-suggestion box (`AutoSuggestion`);
  - error classification (`ErrorHandler`);
  - facet show-more toggling (`FacetsList`);
  - the task form's nested field registration (`TaskForm`).

React `useState` fields and Redux state become class fields; handlers and reducers become methods
whose `ensures` give the whole new state. A `Snapshot()`/`State()` function of each class states
the invariants those methods keep. Pure helpers are functions with lemmas about them. A JavaScript
crash (a property read of `undefined`, a destructuring of `null`) is an error value of a
`Result`, not a precondition.

## Model

| member | source | states |
|---|---|---|
| RuleTree.PathInputNodeSpec | workspace/src/app/views/taskViews/shared/rules/rule.utils.ts:21-41 | a path input becomes a node with the path's id, plugin id "targetPathInput" exactly when isTarget and "sourcePathInput" otherwise, no inputs, ports 0..0 and the single parameter `path` |
| RuleTree.TransformLabel | workspace/src/app/views/taskViews/shared/rules/rule.utils.ts:58 | a transform node's label is the operator's label, or the function id when the lookup finds no operator |
| RuleTree.Flatten | workspace/src/app/views/taskViews/shared/rules/rule.utils.ts:44-66 | the extraction of a tree ends with the operator's own node |
| RuleTree.ChildrenBeforeParent | workspace/src/app/views/taskViews/shared/rules/rule.utils.ts:50-65 | post-order: a transform's node lists its inputs' ids in order, and the node of every input is pushed before it |
| RuleTree.OperatorNodeCollector.ExtractFromPathInput | workspace/src/app/views/taskViews/shared/rules/rule.utils.ts:21-41 | pushes exactly the path-input node and returns the path's id |
| RuleTree.OperatorNodeCollector.ExtractFromTransformInput | workspace/src/app/views/taskViews/shared/rules/rule.utils.ts:44-66 | pushes the nodes of the inputs and then the transform's node, and returns the transform's id |
| RuleTree.OperatorNodeCollector.ExtractFromValue | workspace/src/app/views/taskViews/shared/rules/rule.utils.ts:80-85 | dispatches on the input's type; pushes the tree's post-order nodes and returns the root id |
| RuleTree.OperatorNodeCollector.ExtractOperatorNodeFromValueInput | workspace/src/app/views/taskViews/shared/rules/rule.utils.ts:74-87 | an undefined operator pushes nothing and returns undefined; a defined one pushes its tree's nodes and returns its id |
| RuleTree.NonNullInputs | workspace/src/app/views/taskViews/shared/rules/rule.utils.ts:250 | the kept ids are exactly the defined inputs |
| RuleTree.DefinedParameters | workspace/src/app/views/taskViews/shared/rules/rule.utils.ts:257-262 | same keys in the same order; an undefined parameter value becomes "" and every other value is kept |
| RuleTree.PathParameter | workspace/src/app/views/taskViews/shared/rules/rule.utils.ts:269 | the `path` parameter's value, or "" when there is none |
| RuleTree.FetchRuleOperatorNode | workspace/src/app/views/taskViews/shared/rules/rule.utils.ts:281-296 | succeeds exactly when the id is in the map, with the stored node; otherwise the error names the missing id |
| RuleTree.ConvertToValueInput | workspace/src/app/views/taskViews/shared/rules/rule.utils.ts:241-278 | a path-input node becomes a path input with its path parameter; a transform node becomes a transform with the same id and function, one input per defined input id (each fetched from the map) and the defaulted parameters; any other plugin type is an error |
| RuleTree.ConvertInputs | workspace/src/app/views/taskViews/shared/rules/rule.utils.ts:249-256 | on success every id was in the map and the converted inputs follow the ids in order |
| RuleTree.ConvertInvertsExtraction | workspace/src/app/views/taskViews/shared/rules/rule.utils.ts:241-278 | converting the last extracted node back, with every extracted node stored under its id, gives back the original tree |
| RuleTree.ConvertAllInvertExtraction | workspace/src/app/views/taskViews/shared/rules/rule.utils.ts:249-256 | converting the ids of a list of extracted subtrees gives back that list |
| RuleTree.RootNode | workspace/src/app/views/taskViews/shared/rules/rule.utils.ts:80-85 | the node an operator contributes for itself carries the operator's id |
| RuleTree.OperatorNodeCollector.constructor | workspace/src/app/views/taskViews/shared/rules/rule.utils.ts:76 | the result array the nodes are pushed to starts empty |
| RuleGraph.InputIdSet | workspace/src/app/views/taskViews/shared/rules/rule.utils.ts:306 | the ids a node adds to `hasParent` are exactly its defined inputs |
| RuleGraph.ParentedIdsMembers | workspace/src/app/views/taskViews/shared/rules/rule.utils.ts:303-309 | an id has a parent exactly when some node lists it as a defined input |
| RuleGraph.NodeMapOfMembers | workspace/src/app/views/taskViews/shared/rules/rule.utils.ts:304-309 | the map's keys are the listed ids and each is sent to a listed node with that id |
| RuleGraph.NodeMapOfDistinct | workspace/src/app/views/taskViews/shared/rules/rule.utils.ts:304-309 | with distinct ids the map sends each id to that very node and has one entry per node |
| RuleGraph.UnparentedMembers | workspace/src/app/views/taskViews/shared/rules/rule.utils.ts:310 | the filter keeps exactly the listed nodes whose id is not in `hasParent` |
| RuleGraph.RootNodesSpec | workspace/src/app/views/taskViews/shared/rules/rule.utils.ts:310 | a node is a root exactly when it is listed and no listed node has it as a defined input |
| RuleGraph.RootsOfTwoChains | workspace/src/app/views/taskViews/shared/rules/rule.utils.ts:299-310 | A, B with input A, C with input B, and D give the roots C and D, in that order |
| RuleGraph.Reachable | workspace/src/app/views/taskViews/shared/rules/rule.utils.ts:341-358 | the walk from the root visits the root and only ids of the map, and is closed under following inputs |
| RuleGraph.ReachableLeast | workspace/src/app/views/taskViews/shared/rules/rule.utils.ts:341-358 | the visited set is the least such set |
| RuleGraph.FindCyclesOutcome | workspace/src/app/views/taskViews/shared/rules/rule.utils.ts:358-365 | `findCycles` succeeds exactly when the walk from the root reaches every node of the map, and then never reports a cycle |
| RuleGraph.CycleSearch.constructor | workspace/src/app/views/taskViews/shared/rules/rule.utils.ts:337-341 | the walk starts from the given root and node map with no node visited |
| RuleGraph.CycleSearch.Iterate | workspace/src/app/views/taskViews/shared/rules/rule.utils.ts:342-357 | a node already visited yields itself as a one-node cycle and changes nothing; an unvisited one is marked, its followed inputs are walked and no cycle is returned |
| RuleGraph.CycleSearch.VisitInputs | workspace/src/app/views/taskViews/shared/rules/rule.utils.ts:347-355 | after the `forEach`, every input of the node that is in the map has been visited |
| RuleGraph.FindCycles | workspace/src/app/views/taskViews/shared/rules/rule.utils.ts:337-366 | the imperative walk computes exactly `FindCyclesOutcome` |
| RuleGraph.WalkRises | workspace/src/app/views/taskViews/shared/rules/rule.utils.ts:336 | along a walk through ids that a numbering ranks, the number rises by at least one per step |
| RuleGraph.AcyclicHasNoReturningWalk | workspace/src/app/views/taskViews/shared/rules/rule.utils.ts:336 | in an acyclic rule no walk through reachable nodes comes back to where it started, so there is no cycle to find |
| RuleGraph.IterateIntended | workspace/src/app/views/taskViews/shared/rules/rule.utils.ts:342-357 | with the early return: a visited node yields itself and changes nothing; an unvisited one is marked with the next number; a path found ends at the node, follows inputs backwards and has at least two nodes; when none is found every id marked meanwhile steps only to ids marked after it |
| RuleGraph.VisitInputsIntended | workspace/src/app/views/taskViews/shared/rules/rule.utils.ts:346-355 | marks the node, walks its inputs in order and stops at the first path found, which ends at the node |
| RuleGraph.VisitInputIntended | workspace/src/app/views/taskViews/shared/rules/rule.utils.ts:348-353 | an input that is unset, empty or not in the map changes nothing; a followed one is walked and a path found below it comes back with the node pushed |
| RuleGraph.FindCyclesIntended | workspace/src/app/views/taskViews/shared/rules/rule.utils.ts:336-366 | throws the not-connected error whenever the root does not reach every node; returning no path means the rule is acyclic; a returned path starts at the root, follows inputs and has at least two nodes |
| RuleGraph.CycleAcceptedAsWritten | workspace/src/app/views/taskViews/shared/rules/rule.utils.ts:323-356 | as written, R with input A, A with input B and B with input A pass the validation with the single root R, although the rule is not acyclic |
| RuleGraph.TwoCycle | workspace/src/app/views/taskViews/shared/rules/rule.utils.ts:341-358 | in that rule the walk from R reaches every node, and the rule is not acyclic |
| RuleGraph.MultipleRootsError | workspace/src/app/views/taskViews/shared/rules/rule.utils.ts:312-320 | one node error per root, in order, carrying the root's id |
| RuleGraph.AddInputIds | workspace/src/app/views/taskViews/shared/rules/rule.utils.ts:306 | `hasParent` grows by exactly the node's defined inputs |
| RuleGraph.IndexNodes | workspace/src/app/views/taskViews/shared/rules/rule.utils.ts:303-309 | the loop builds exactly the parented-id set and the id→node map |
| RuleGraph.FilterRoots | workspace/src/app/views/taskViews/shared/rules/rule.utils.ts:310 | the kept nodes are the unparented ones, in input order |
| RuleGraph.ConvertToRuleOperatorNodeMap | workspace/src/app/views/taskViews/shared/rules/rule.utils.ts:299-334 | returns or throws exactly what `NodeMapOutcome` says |
| RuleGraph.NodeMapOutcomeCases | workspace/src/app/views/taskViews/shared/rules/rule.utils.ts:311-333 | without validation nothing throws; with it, several roots throw one node error per root, no root in a non-empty rule throws the cycle error, and one root passes exactly when it reaches every node |
| RuleGraph.ExtractThenConvert | workspace/src/app/views/taskViews/shared/rules/rule.utils.ts:241-310 | with distinct ids, mapping the extracted nodes by id and converting the last one back gives the original tree |
| RuleGraph.OneRootFeedsAll | workspace/src/app/views/taskViews/shared/rules/rule.utils.ts:299-334 | A and B feeding C validate, with the single root C and a map of three nodes |
| RuleOperators.ConvertPluginParameterTypeCases | workspace/src/app/views/taskViews/shared/rules/rule.utils.ts:182-215 | the backend parameter type maps to "int" exactly for int, Long and option[int], to "textArea" exactly for multiline string, stringmap and traversable[string], to boolean, float, code, password and resource for their one type each, and to "textField" for everything else; never to "pathInput" |
| RuleOperators.PluginTags | workspace/src/app/views/taskViews/shared/rules/rule.utils.ts:218-229 | one tag naming the operator kind for transform, comparison and aggregation plugins, none otherwise |
| RuleOperators.PortSpecificationOf | workspace/src/app/views/taskViews/shared/rules/rule.utils.ts:231-238 | a comparison takes exactly two inputs; every other operator at least one, with no maximum |
| RuleOperators.ParameterSpecificationOf | workspace/src/app/views/taskViews/shared/rules/rule.utils.ts:122-141 | label, description and validation are kept; the defaults are "" for the value, "textField" for the type, not advanced and required |
| RuleOperators.InputPathOperator | workspace/src/app/views/taskViews/shared/rules/rule.utils.ts:90-118 | a path-input operator: ports 0..0 (it accepts no input count but 0), the single required parameter `path` of type "pathInput" with default "", category "Input", no icon and no tags |
| RuleOperators.PropertySpecification | workspace/src/app/views/taskViews/shared/rules/rule.utils.ts:162-172 | a plugin property's spec is required exactly when the plugin lists its id as required, with the converted type, the property's title, default value and advanced flag |
| RuleOperators.ConvertRuleOperator | workspace/src/app/views/taskViews/shared/rules/rule.utils.ts:148-179 | the operator keeps the plugin's id, title, description and categories, has plugin type "unknown" when none is given, the icon "artefact-task", and the plugin's ports and tags |
| RuleOperators.ConvertRuleOperatorParameters | workspace/src/app/views/taskViews/shared/rules/rule.utils.ts:161-175 | an id is a parameter exactly when it is a plugin property or an additional spec; an additional spec overrides the plugin's own; a plugin parameter is required exactly when listed as required |
| RuleOperators.ConnectionsByReceiver | workspace/src/app/views/taskViews/shared/rules/rule.utils.ts:382-412 | nothing flows into a path input; a transform accepts paths and transforms; a comparison accepts transforms, and paths only on their own side; an aggregation accepts comparisons and aggregations; an operator of unknown type may connect anywhere |
| RuleOperators.PathNodesOnTheirSide | workspace/src/app/views/taskViews/shared/rules/rule.utils.ts:388-394 | into a comparison a source path connects only to port 0 and a target path only to port 1; any other path node connects to no port |
| RuleOperators.PositionEntries | workspace/src/app/views/taskViews/shared/rules/rule.utils.ts:371-375 | an id gets a position exactly when some node with that id has one |
| RuleOperators.RuleLayout | workspace/src/app/views/taskViews/shared/rules/rule.utils.ts:369-379 | the loop records exactly the positions of the positioned nodes, later ones overwriting earlier ones |
| RuleOperators.RuleLayoutPositions | workspace/src/app/views/taskViews/shared/rules/rule.utils.ts:369-379 | a node id is in the layout exactly when a node with that id has a position |
| RuleOperators.LastPositionWins | workspace/src/app/views/taskViews/shared/rules/rule.utils.ts:371-375 | the recorded position for an id is that of the last positioned node with that id |
| RuleOperators.OperatorsOfType | workspace/src/app/views/taskViews/shared/rules/rule.utils.ts:428 | the filter keeps exactly the operators of the tab's plugin type |
| RuleOperators.FilterAndSort | workspace/src/app/views/taskViews/shared/rules/rule.utils.ts:419-440 | the "all" tab shows the operators unchanged; the other tabs show a permutation of the operators of their type |
| RuleOperators.FilterAndSortSpec | workspace/src/app/views/taskViews/shared/rules/rule.utils.ts:416-438 | a filtering tab shows exactly the operators of its type, each as often as given, sorted by lower-cased label |
| RuleEditorTypings.NoMaximumMeansUnlimited | workspace/src/app/views/shared/RuleEditor/RuleEditor.typings.ts:27-32 | a port specification without a maximum admits every input count from the minimum on |
| RuleEditorTypings.NewRuleValidationError | workspace/src/app/views/shared/RuleEditor/RuleEditor.typings.ts:168-188 | never a success and always flagged as a rule validation error; the message is the given one and the name the constant "Rule validation error"; omitted node errors give an empty list; otherwise one node error per entry, in order, keeping only the node id and the message |
| RuleEditorModel.NodeParameterValue | workspace/src/app/views/shared/RuleEditor/model/RuleEditorModel.typings.ts:15-17 | a string is returned unchanged, a labelled value yields its `value`, and only undefined yields undefined |
| RuleEditorModel.TypeTagDeterminesKind | workspace/src/app/views/shared/RuleEditor/model/RuleEditorModel.typings.ts:19-68 | two changes with the same type tag are changes of the same kind |
| RuleEditorModel.ToRuleModelChanges | workspace/src/app/views/shared/RuleEditor/model/RuleEditorModel.typings.ts:71-75 | an array of changes is kept as the same list; a single change becomes a one-element list |
| RuleEditorModel.PluralNodeFactoriesAreSingularsInOrder | workspace/src/app/views/shared/RuleEditor/model/RuleEditorModel.typings.ts:79-94 | `addNodes` and `deleteNodes` give one operation per node, in order, each the singular factory's operation with the matching tag |
| RuleEditorModel.PluralEdgeFactoriesAreSingularsInOrder | workspace/src/app/views/shared/RuleEditor/model/RuleEditorModel.typings.ts:95-110 | `addEdges` and `deleteEdges` give one operation per edge, in order, each the singular factory's operation with the matching tag |
| RuleEditorModel.ChangeNodePositionChange | workspace/src/app/views/shared/RuleEditor/model/RuleEditorModel.typings.ts:111-112 | exactly one "Change node position" operation carrying the node id and both positions unchanged |
| RuleEditorModel.ChangeNodeParameterChange | workspace/src/app/views/shared/RuleEditor/model/RuleEditorModel.typings.ts:113-120 | exactly one "Change node parameter" operation carrying the node id, parameter id and both values unchanged |
| I18nScanner.MergeKeysSpec | workspace/scripts/i18next-scanner.js:107-118 | the loop over some keys succeeds exactly when each of them is mergeable (absent on a side, or objects on both); then each visited key holds what the merge promises and every other key keeps the target's value |
| I18nScanner.MergedSpec | workspace/scripts/i18next-scanner.js:106-123 | lossless merge: it throws exactly when some key is held by both sides and one of the two values is not an object; otherwise the result has every key of either side, a key only in the target keeps its value, a key only in the source is copied, and a shared key holds the recursive merge |
| I18nScanner.MergeKeysKeepsError | workspace/scripts/i18next-scanner.js:107-113 | once a key throws, the rest of the loop does not run and the error is the result |
| I18nScanner.DeepMerge | workspace/scripts/i18next-scanner.js:106-123 | the imperative merge throws the same error, or returns the merged target together with the source with the target assigned over it |
| I18nScanner.FirstLanguageCodeFrom | workspace/scripts/i18next-scanner.js:137-140 | the first position from p on where two lower-case letters precede ".json", or none |
| I18nScanner.ExtractLanguageSpec | workspace/scripts/i18next-scanner.js:137-140 | a file name has a language code exactly when the pattern matches somewhere, and the code is the two letters of the leftmost match |
| I18nScanner.GroupedByLanguageOutcome | workspace/scripts/i18next-scanner.js:139-148 | grouping succeeds exactly when every file name has a language code; otherwise the error names the first file without one (the destructuring fault) |
| I18nScanner.GroupedByLanguageKeys | workspace/scripts/i18next-scanner.js:139-148 | the languages are the files' codes, each once, in order of first appearance |
| I18nScanner.GroupedByLanguageFiles | workspace/scripts/i18next-scanner.js:139-148 | a language's list is exactly its files, in file order |
| I18nScanner.GroupByLanguage | workspace/scripts/i18next-scanner.js:138-148 | the loop computes exactly `GroupedByLanguage` |
| I18nScanner.MergedFilesKeys | workspace/scripts/i18next-scanner.js:150-155 | the merged content of a language has exactly the top-level keys of its files |
| I18nScanner.MergeLanguageFiles | workspace/scripts/i18next-scanner.js:151-155 | the loop computes exactly `MergedFiles` |
| I18nScanner.MergedLanguagesKeys | workspace/scripts/i18next-scanner.js:149-158 | one temporary file is written per language, in the same order |
| I18nScanner.TempLanguageFilesSpec | workspace/scripts/i18next-scanner.js:136-160 | without an error, the returned languages are the codes of the file names, each once, in order of first appearance, and one file is written for each |
| I18nScanner.CreateTempLanguageFiles | workspace/scripts/i18next-scanner.js:136-160 | the imperative script computes exactly `TempLanguageFiles` |
| I18nScanner.LineEndingOf | workspace/scripts/i18next-scanner.js:49 | the lower-cased option selects auto for "auto", CRLF for "\r\n" and "crlf", CR for "\r" and "cr", and LF for anything else |
| I18nScanner.WithoutBreaks | workspace/scripts/i18next-scanner.js:80-91 | the text with the line breaks removed has no line break |
| I18nScanner.ConvertKeepsText | workspace/scripts/i18next-scanner.js:80-91 | converting line endings changes nothing but the line breaks |
| I18nScanner.ConvertLeavesNoOtherBreak | workspace/scripts/i18next-scanner.js:84-91 | after converting to CR no line feed is left, and after converting to LF no carriage return |
| I18nScanner.ConvertLineEndingsIdempotent | workspace/scripts/i18next-scanner.js:80-91 | converting an already converted text again changes nothing |
| I18nScanner.RemoveAllUnused | workspace/scripts/i18next-scanner.js:63-73 | against an empty namespace every existing key is unused, so nothing is kept |
| I18nScanner.RemoveUnusedKeysSpec | workspace/scripts/i18next-scanner.js:63-73 | what is left of the existing file has only keys the namespace has, no empty object, and leaf values unchanged and only where the namespace has a leaf; every leaf that the namespace also has as a leaf is kept |
| I18nScanner.NamespaceContentSpec | workspace/scripts/i18next-scanner.js:55-76 | the default language writes the scanned keys as they are; another language lets an existing value win over the scanned one, and with removeUnusedKeys has exactly the scanned keys |
| I18nScanner.FlushNamespace | workspace/scripts/i18next-scanner.js:55-91 | the namespace's object and text are the computed content and its rendering with a final newline and converted line endings |
| I18nScanner.FlushedNamespaces | workspace/scripts/i18next-scanner.js:54-98 | one file per namespace of a language |
| I18nScanner.FlushedStoreCount | workspace/scripts/i18next-scanner.js:51-99 | one file per namespace of every language |
| I18nScanner.CustomFlush | workspace/scripts/i18next-scanner.js:42-102 | the nested loops write exactly `FlushedStore` |
| PrefixNew.MatchRestSpec | workspace/src/app/views/pages/Project/ProjectNamespacePrefixManagementWidget/PrefixNew.tsx:15-16 | the expression after the first character accepts exactly a rest that is empty, or ends in a name character with only name characters and dots before |
| PrefixNew.ValidatePrefixNameSpec | workspace/src/app/views/pages/Project/ProjectNamespacePrefixManagementWidget/PrefixNew.tsx:12-24 | `validatePrefixName` accepts exactly the names of PN_PREFIX (production [167s] of section 6.5 of W3C RDF 1.1 Turtle): a base character first, a name character last, name characters or dots between |
| PrefixNew.RejectedPrefixNames | workspace/src/app/views/pages/Project/ProjectNamespacePrefixManagementWidget/PrefixNew.tsx:14-16 | the empty name, a name ending in a dot and a name starting with a digit, "_", "-" or "." are rejected; a single ASCII letter is accepted |
| PrefixNew.FirstInvalidUriChar | workspace/src/app/views/pages/Project/ProjectNamespacePrefixManagementWidget/PrefixNew.tsx:20 | none exactly when no character is a control character, space or one of <>"{}\|^`\; otherwise the index of such a character |
| PrefixNew.ValidatePrefixValue | workspace/src/app/views/pages/Project/ProjectNamespacePrefixManagementWidget/PrefixNew.tsx:27-39 | an index exactly when the value has an invalid character, and then the first one; otherwise a boolean that is true exactly when the value parses as a URL with a host or a path (false when parsing throws) |
| PrefixNew.SubmitEnabledSpec | workspace/src/app/views/pages/Project/ProjectNamespacePrefixManagementWidget/PrefixNew.tsx:131-133 | the button is enabled exactly when the name is valid and the value check is exactly `true`; an index, even 0, disables it |
| PrefixNew.PrefixForm.constructor | workspace/src/app/views/pages/Project/ProjectNamespacePrefixManagementWidget/PrefixNew.tsx:44-48 | an empty definition, no dialog, and validity flags that agree with it |
| PrefixNew.PrefixForm.OnPrefixNameChange | workspace/src/app/views/pages/Project/ProjectNamespacePrefixManagementWidget/PrefixNew.tsx:54-62 | a defined value replaces the name and re-validates it; a missing one changes nothing |
| PrefixNew.PrefixForm.OnPrefixUriChange | workspace/src/app/views/pages/Project/ProjectNamespacePrefixManagementWidget/PrefixNew.tsx:63-71 | a defined value replaces the URI and re-validates it; a missing one changes nothing |
| PrefixNew.PrefixForm.ErrorIconsSpec | workspace/src/app/views/pages/Project/ProjectNamespacePrefixManagementWidget/PrefixNew.tsx:76-88 | error icons appear only for non-empty fields; the value tooltip names a character exactly when the URI has an invalid one, and it is the first |
| PrefixNew.PrefixForm.Submit | workspace/src/app/views/pages/Project/ProjectNamespacePrefixManagementWidget/PrefixNew.tsx:128-129 | for a name already defined the overwrite dialog opens and nothing is added; otherwise the definition is added at once |
| PrefixNew.PrefixForm.ConfirmOverwrite | workspace/src/app/views/pages/Project/ProjectNamespacePrefixManagementWidget/PrefixNew.tsx:147-150 | confirming closes the dialog and adds the definition |
| PrefixNew.PrefixForm.CancelOverwrite | workspace/src/app/views/pages/Project/ProjectNamespacePrefixManagementWidget/PrefixNew.tsx:155 | cancelling only closes the dialog |
| PrefixNew.PrefixForm.SubmittedDefinitionIsValid | workspace/src/app/views/pages/Project/ProjectNamespacePrefixManagementWidget/PrefixNew.tsx:131-133 | whatever can be submitted has a valid name and a URI without invalid characters that parses as a URL |
| Highlighter.EscapeCharsLiteral | workspace/src/app/views/shared/Highlighter/Highlighter.tsx:7 | the escaped word matches exactly the word taken literally: no special character is left bare |
| Highlighter.EscapeRegexWordSpec | workspace/src/app/views/shared/Highlighter/Highlighter.tsx:6-8 | `escapeRegexWord` yields a pattern that matches exactly the lower-cased word, literally |
| Highlighter.NonEmptyWords | workspace/src/app/views/shared/Highlighter/Highlighter.tsx:20 | the search words are exactly the non-empty pieces of the split |
| Highlighter.FirstWordAtSpec | workspace/src/app/views/shared/Highlighter/Highlighter.tsx:24-25 | at one position the first word in the list that matches there wins |
| Highlighter.NextMatch | workspace/src/app/views/shared/Highlighter/Highlighter.tsx:30-37 | a match lies within the label from the offset on, and with non-empty words is never empty |
| Highlighter.NextMatchSpec | workspace/src/app/views/shared/Highlighter/Highlighter.tsx:30-37 | the match found is at the leftmost position from the offset where any word matches, with the length of the first word matching there; none exactly when no word matches anywhere from the offset |
| Highlighter.SegmentsReconstruct | workspace/src/app/views/shared/Highlighter/Highlighter.tsx:30-41 | concatenating the unmatched and marked parts gives back the label exactly, case included |
| Highlighter.SegmentsAlternate | workspace/src/app/views/shared/Highlighter/Highlighter.tsx:32-40 | unmatched and marked parts alternate, starting and ending with an unmatched one: 2k+1 parts for k matches |
| Highlighter.SegmentsLeftmost | workspace/src/app/views/shared/Highlighter/Highlighter.tsx:30-38 | matches run left to right without overlap: no word matches inside an unmatched part, and every mark is the first matching word at its position |
| Highlighter.MarkedArePatterns | workspace/src/app/views/shared/Highlighter/Highlighter.tsx:24-35 | every marked part equals, ignoring case, one of the literal words |
| Highlighter.SearchWords | workspace/src/app/views/shared/Highlighter/Highlighter.tsx:20 | the search words are all non-empty, so every match advances the offset and the loop ends |
| Highlighter.Patterns | workspace/src/app/views/shared/Highlighter/Highlighter.tsx:24 | one alternative per word: the lower-cased word taken literally |
| Highlighter.GetSearchHighlight | workspace/src/app/views/shared/Highlighter/Highlighter.tsx:15-42 | the imperative function returns exactly `Highlight` |
| Highlighter.PushSegments | workspace/src/app/views/shared/Highlighter/Highlighter.tsx:28-40 | the match loop pushes exactly the parts `Segments` describes |
| Highlighter.SegmentsSpec | workspace/src/app/views/shared/Highlighter/Highlighter.tsx:24-41 | the parts alternate, rebuild the label, follow the leftmost-first matcher, and each mark equals a search word ignoring case |
| Highlighter.HighlightSpec | workspace/src/app/views/shared/Highlighter/Highlighter.tsx:16-23 | an empty search value, or one without non-empty words, returns the label unchanged; otherwise the parts of the match loop |
| SearchItem.ItemLinkIconSpec | workspace/src/app/views/pages/Workspace/SearchList/SearchItem.tsx:35-46 | only the "Mapping editor", "Transform evaluation" and "Transform execution" links get an icon, and no two of them share one |
| SearchItem.ContextMenuItems | workspace/src/app/views/pages/Workspace/SearchList/SearchItem.tsx:85-95 | the context menu lists every link but the first, in order, with its label, path and icon |
| SearchItem.LinksOfferedOnce | workspace/src/app/views/pages/Workspace/SearchList/SearchItem.tsx:85-137 | the details button (present exactly when there is a link) and the context menu together offer every link path exactly once, in order |
| SearchItem.RenderParts | workspace/src/app/views/pages/Workspace/SearchList/SearchItem.tsx:73-74 | one rendered string per part |
| SearchItem.LeadingSpaceGivesEmptyWord | workspace/src/app/views/pages/Workspace/SearchList/SearchItem.tsx:63 | as written, a query that starts with whitespace splits into an empty first word |
| SearchItem.EmptyWordNeverExhausts | workspace/src/app/views/pages/Workspace/SearchList/SearchItem.tsx:71-77 | as written, with an empty word in the alternation a match is found from every offset, so the loop never ends |
| SearchItem.LeadingSpaceStalls | workspace/src/app/views/pages/Workspace/SearchList/SearchItem.tsx:63-77 | as written, for the query " a" the match at every offset is the empty one at that offset, so the offset never advances |
| SearchItem.MarkupPartsRender | workspace/src/app/views/pages/Workspace/SearchList/SearchItem.tsx:71-79 | on the lower-cased label the pushed strings are the highlighting parts, with each match lower-cased inside `<mark>` |
| SearchItem.GetSearchHighlight | workspace/src/app/views/pages/Workspace/SearchList/SearchItem.tsx:59-82 | the loop (with empty words dropped) returns exactly `Markup` |
| SearchItem.MarkupSpec | workspace/src/app/views/pages/Workspace/SearchList/SearchItem.tsx:59-82 | an empty query, or one without words, returns the label; otherwise the joined rendered parts, whose texts rebuild the label |
| SearchItem.MarkupWithoutMatch | workspace/src/app/views/pages/Workspace/SearchList/SearchItem.tsx:59-82 | where no search word occurs in the label, ignoring case, the markup is the label itself |
| RuleOperatorSidebar.TagColorSpec | workspace/src/app/views/shared/RuleEditor/view/sidebar/RuleOperator.tsx:79-90 | a tag has a colour exactly when it is "Transform", "Input", "Comparison" or "Aggregation", and each of them has its own |
| RuleOperatorSidebar.WordStart | workspace/src/app/views/shared/RuleEditor/view/sidebar/RuleOperator.tsx:96-101 | the word start is at or before the match, at the text's start or after a whitespace character, with no whitespace between it and the match |
| RuleOperatorSidebar.WordStartLatest | workspace/src/app/views/shared/RuleEditor/view/sidebar/RuleOperator.tsx:96-101 | that position is unique: it is the latest such start |
| RuleOperatorSidebar.ExtractSearchSnippet | workspace/src/app/views/shared/RuleEditor/view/sidebar/RuleOperator.tsx:93-104 | nothing for an empty text or no match; otherwise the text from the start of the word holding the match |
| RuleOperatorSidebar.DescriptionSearchSnippet | workspace/src/app/views/shared/RuleEditor/view/sidebar/RuleOperator.tsx:21-24 | a snippet is computed only with search words and a non-empty description, and is then the description from the start of the matching word |
| WorkspaceSelectors.StripInsertCommas | workspace/src/app/store/ducks/workspace/selectors.ts:31-34 | inserting the separators adds nothing but commas |
| WorkspaceSelectors.InsertCommasIsGrouped | workspace/src/app/store/ducks/workspace/selectors.ts:31-34 | the regular expression's replacement equals the independent grouping: the last three digits form a group, and the digits before them are grouped the same way |
| WorkspaceSelectors.GroupedIsWellGrouped | workspace/src/app/store/ducks/workspace/selectors.ts:31-34 | the grouping has a first group of one to three digits, then groups of exactly three, each after a comma |
| WorkspaceSelectors.NumberWithCommasSpec | workspace/src/app/store/ducks/workspace/selectors.ts:31-34 | removing the commas gives the decimal string; the groups are well formed; there is a comma exactly from 1000 on, and below 1000 the string is the plain number |
| WorkspaceSelectors.FilesList | workspace/src/app/store/ducks/workspace/selectors.ts:36-43 | one row per file, in order |
| WorkspaceSelectors.FileRowFields | workspace/src/app/store/ducks/workspace/selectors.ts:37-42 | a row field is the file's own value when the file has that field (spread last, it wins), else the computed `id`, `formattedDate` or `formattedSize` |
| WorkspaceSelectors.FileRowDefaults | workspace/src/app/store/ducks/workspace/selectors.ts:37-42 | unless the server sends fields of those names, a row's id is the file name and its formatted size the size with thousands separators |
| WorkspaceSelectors.IsEmptyPageSpec | workspace/src/app/store/ducks/workspace/selectors.ts:47-50 | the empty-workspace page is shown exactly when no search is loading, the last one found nothing and the workspace is reported empty; a loading search or a single result never shows it |
| RouterOperations.ItemTypeToPathSpec | workspace/src/app/store/ducks/router/operations.ts:25-32 | every non-empty type gets one of the five path segments and only the empty type throws; a type whose capitalised form is not in the table goes to "task" |
| RouterOperations.KnownItemTypes | workspace/src/app/store/ducks/router/operations.ts:17-32 | each of the five known types is found with an upper- or lower-case first letter |
| RouterOperations.PageTargetSpec | workspace/src/app/store/ducks/router/operations.ts:63-90 | `goToPage` pushes and `replacePage` overwrites; an absolute path is kept, a relative one goes under the base path and ends the target; the two agree except on the empty path, where only `replacePage` appends "/" |
| RouterOperations.GoToTaskPageSpec | workspace/src/app/store/ducks/router/operations.ts:74-83 | a task page is pushed at base path + "/projects/" + project + "/" + type path + "/" + id, with only the task label; only an empty type fails |
| RouterOperations.UpdateLocationStateSpec | workspace/src/app/store/ducks/router/operations.ts:92-108 | the current entry is overwritten exactly when the pathname ends with the page's path, with exactly one label: the task label under a project, the project label otherwise |
| RouterOperations.ApplyParamsSpec | workspace/src/app/store/ducks/router/operations.ts:39-48 | applying the parameters throws exactly when one is null or undefined; otherwise every given parameter holds its non-empty value or is absent, and every other key keeps its entry |
| RouterOperations.ApplyQueryParams | workspace/src/app/store/ducks/router/operations.ts:39-48 | the loop computes exactly `ApplyParams` |
| RouterOperations.SetQueryString | workspace/src/app/store/ducks/router/operations.ts:34-55 | the parameters applied to an empty query are pushed after the pathname and "?" |
| RouterOperations.SetQueryStringFromEmpty | workspace/src/app/store/ducks/router/operations.ts:37-48 | the pushed query holds exactly the given parameters whose value is non-empty, each with that value |
| StateRouterOperations.SetQueryString | workspace/src/app/state/ducks/router/operations.ts:8-27 | the parameters merged into the parsed current query are written over the current history entry |
| StateRouterOperations.MergeQuerySpec | workspace/src/app/state/ducks/router/operations.ts:11-22 | a given parameter with a non-empty value overwrites its entry, one with an empty value is deleted, and a parameter not given keeps its current entry |
| CommonSlice.TallyAllGet | workspace/src/app/store/ducks/common/commonSlice.ts:120-124 | counting a list of categories adds each category's number of occurrences to its count and leaves every category that does not occur as it was |
| CommonSlice.TallyItemsGet | workspace/src/app/store/ducks/common/commonSlice.ts:120-124 | counting the categories of all items adds each category's occurrences across the items and leaves the others as they were |
| CommonSlice.TallyAllUnique | workspace/src/app/store/ducks/common/commonSlice.ts:122 | counting never lists a category twice |
| CommonSlice.TallyItemsUnique | workspace/src/app/store/ducks/common/commonSlice.ts:120-124 | counting the items' categories never lists a category twice |
| CommonSlice.CategoryCountsSpec | workspace/src/app/store/ducks/common/commonSlice.ts:117-124 | "All" holds the number of items plus any category literally named "All"; every other category holds its number of occurrences and is present only if it occurs; no category appears twice |
| CommonSlice.CountCategories | workspace/src/app/store/ducks/common/commonSlice.ts:117-124 | the nested loops compute exactly the category counts |
| CommonSlice.CountEntries | workspace/src/app/store/ducks/common/commonSlice.ts:125-126 | one label/count entry per counted category, in the same order |
| CommonSlice.DistinctLabelsPermutation | workspace/src/app/store/ducks/common/commonSlice.ts:125-127 | reordering the entries keeps their labels distinct |
| CommonSlice.SingleOccurrence | workspace/src/app/store/ducks/common/commonSlice.ts:125-127 | with distinct labels each entry occurs exactly once |
| CommonSlice.SortedCategoriesSpec | workspace/src/app/store/ducks/common/commonSlice.ts:125-129 | the category list is sorted by label, has no label twice, and holds an entry exactly when the counts hold that category with that count |
| CommonSlice.GetEntry | workspace/src/app/store/ducks/common/commonSlice.ts:125-126 | an entry is listed exactly when the counts record holds its category with its count |
| CommonSlice.FirstMatch | workspace/src/app/store/ducks/common/commonSlice.ts:30-42 | the parameters come from a route that matches, and there are none exactly when no route matches |
| CommonSlice.CommonState.constructor | workspace/src/app/store/ducks/common/initialState.ts:17-30 | the initial store: browser language, no project or task, logged in, empty search, no error or data types, a closed dialog filtered on "all" |
| CommonSlice.CommonState.SetInitialSettings | workspace/src/app/store/ducks/common/commonSlice.ts:58-60 | only the initial settings change |
| CommonSlice.CommonState.FetchAvailableDTypes | workspace/src/app/store/ducks/common/commonSlice.ts:62-64 | only the data types change, to none |
| CommonSlice.CommonState.SetExportTypes | workspace/src/app/store/ducks/common/commonSlice.ts:66-68 | only the export types change |
| CommonSlice.CommonState.UpdateAvailableDTypes | workspace/src/app/store/ducks/common/commonSlice.ts:70-73 | the field's data type becomes the given one, every other field keeps its own, and nothing else in the store changes |
| CommonSlice.CommonState.SetProjectId | workspace/src/app/store/ducks/common/commonSlice.ts:75-77 | only the current project changes |
| CommonSlice.CommonState.SetTaskId | workspace/src/app/store/ducks/common/commonSlice.ts:79-81 | only the current task changes |
| CommonSlice.CommonState.SetError | workspace/src/app/store/ducks/common/commonSlice.ts:83-85 | only the error changes |
| CommonSlice.CommonState.ChangeLanguage | workspace/src/app/store/ducks/common/commonSlice.ts:87-89 | only the language changes |
| CommonSlice.CommonState.LoginSuccess | workspace/src/app/store/ducks/common/commonSlice.ts:91-93 | only the login flag changes, to true |
| CommonSlice.CommonState.LogoutUser | workspace/src/app/store/ducks/common/commonSlice.ts:95-97 | only the login flag changes, to false |
| CommonSlice.CommonState.CloseArtefactModal | workspace/src/app/store/ducks/common/commonSlice.ts:99-103 | the dialog closes and forgets its selection and the task being edited; nothing else changes |
| CommonSlice.CommonState.SelectArtefact | workspace/src/app/store/ducks/common/commonSlice.ts:105-109 | the dialog opens on the given item type, or on an empty object when none is given, and leaves edit mode |
| CommonSlice.CommonState.FetchArtefactsList | workspace/src/app/store/ducks/common/commonSlice.ts:111-114 | the catalogue and the dialog's error are cleared |
| CommonSlice.CommonState.SetArtefactsList | workspace/src/app/store/ducks/common/commonSlice.ts:116-130 | the catalogue is stored as given, with its categories counted and sorted by label |
| CommonSlice.CommonState.SetSelectedArtefactDType | workspace/src/app/store/ducks/common/commonSlice.ts:132-135 | the dialog opens filtered on the given data type, "all" when none or an empty one is given |
| CommonSlice.CommonState.SetCachedArtefactProperty | workspace/src/app/store/ducks/common/commonSlice.ts:137-140 | the description is cached under its plugin id; every other plugin keeps its cached description |
| CommonSlice.CommonState.SetArtefactLoading | workspace/src/app/store/ducks/common/commonSlice.ts:142-144 | only the dialog's loading flag changes |
| CommonSlice.CommonState.UpdateProjectTask | workspace/src/app/store/ducks/common/commonSlice.ts:146-149 | the dialog opens to edit the given task |
| CommonSlice.CommonState.SetModalError | workspace/src/app/store/ducks/common/commonSlice.ts:151-153 | only the dialog's error changes |
| CommonSlice.CommonState.OnLocationChange | workspace/src/app/store/ducks/common/commonSlice.ts:21-51 | the first matching route sets the project and task, an empty parameter counting as none; with no matching route both are cleared; nothing else changes |
| GlobalSlice.GlobalState.constructor | workspace/src/app/store/ducks/global/globalSlice.ts:8 | the store starts from the given initial state |
| GlobalSlice.GlobalState.FetchAvailableDTypes | workspace/src/app/store/ducks/global/globalSlice.ts:10-12 | only the data types change, to none |
| GlobalSlice.GlobalState.UpdateAvailableDTypes | workspace/src/app/store/ducks/global/globalSlice.ts:13-16 | the field's data type becomes the given one, every other field keeps its own, and nothing else changes |
| GlobalSlice.GlobalState.CloseArtefactModal | workspace/src/app/store/ducks/global/globalSlice.ts:17-20 | the dialog closes and forgets its selection |
| GlobalSlice.GlobalState.SelectArtefact | workspace/src/app/store/ducks/global/globalSlice.ts:21-24 | the dialog opens on the payload as given |
| GlobalSlice.GlobalState.FetchArtefactsList | workspace/src/app/store/ducks/global/globalSlice.ts:25-27 | only the catalogue is cleared |
| GlobalSlice.GlobalState.SetArtefactsList | workspace/src/app/store/ducks/global/globalSlice.ts:28-30 | only the catalogue changes, to the payload |
| GlobalSlice.GlobalState.SetError | workspace/src/app/store/ducks/global/globalSlice.ts:31-37 | the stored error is the payload, turned into a network error exactly when it is one |
| GlobalSlice.GlobalState.ChangeLanguage | workspace/src/app/store/ducks/global/globalSlice.ts:38-40 | only the language changes, to the payload's locale |
| GlobalSlice.GlobalState.LoginSuccess | workspace/src/app/store/ducks/global/globalSlice.ts:41-43 | only the login flag changes, to true |
| GlobalSlice.GlobalState.LogoutUser | workspace/src/app/store/ducks/global/globalSlice.ts:44-46 | only the login flag changes, to false |
| GlobalSlice.GlobalState.AddBreadcrumb | workspace/src/app/store/ducks/global/globalSlice.ts:47-53 | one breadcrumb linking to the base path followed by the given href is appended; the earlier breadcrumbs are kept |
| GlobalReducers.GlobalSpec | workspace/src/app/state/ducks/global/reducers.ts:4-27 | each action changes at most its own field: a language change only the language, a login or logout only the flag, any other action nothing; the other fields pass through; a missing state is the default state |
| GlobalReducers.GlobalIdempotent | workspace/src/app/state/ducks/global/reducers.ts:4-27 | applying the same action twice is applying it once, and of two logins or logouts the last one decides the flag |
| LinkageRuleConfig.SetOrClearSpec | workspace/src/app/views/pages/Linking/config/LinkageRuleConfigModal.tsx:53-57 | afterwards the key holds the given value or nothing, every other key what it held, and keys stay unique |
| LinkageRuleConfig.LinkageRuleConfigModal.constructor | workspace/src/app/views/pages/Linking/config/LinkageRuleConfigModal.tsx:13-20 | the dialog starts with the given parameters, no changed value, no error, nothing changed, an error count of 0 and not saving |
| LinkageRuleConfig.LinkageRuleConfigModal.ChangeParameter | workspace/src/app/views/pages/Linking/config/LinkageRuleConfigModal.tsx:29-63 | the parameter's error becomes its validation's verdict and its changed value is dropped when it equals the initial value and kept otherwise; no other parameter is touched; a new or a resolved error sets the error count to the number of errors, an existing message that changed sets it one higher, and an unchanged verdict leaves it |
| LinkageRuleConfig.LinkageRuleConfigModal.SyncErrorCount | workspace/src/app/views/pages/Linking/config/LinkageRuleConfigModal.tsx:22-27 | the error count catches up with the number of errors and nothing else changes |
| LinkageRuleConfig.LinkageRuleConfigModal.UpdatedParameters | workspace/src/app/views/pages/Linking/config/LinkageRuleConfigModal.tsx:66-69 | every parameter in its original order, with its changed value where there is one and its initial value otherwise |
| LinkageRuleConfig.LinkageRuleConfigModal.OnSubmit | workspace/src/app/views/pages/Linking/config/LinkageRuleConfigModal.tsx:65-73 | the updated parameters are handed over; after a resolved `submit` the dialog is no longer saving, after a rejected one the rejection propagates and the saving state stays on |
| LinkageRuleConfig.SubmitEnabledSpec | workspace/src/app/views/pages/Linking/config/LinkageRuleConfigModal.tsx:88 | once the error count has caught up, the update button is enabled exactly when some value differs from its initial one and no value is invalid |
| LinkageRuleConfig.SubmitWithoutChanges | workspace/src/app/views/pages/Linking/config/LinkageRuleConfigModal.tsx:66-69 | without changes every parameter is submitted with its initial value |
| TaskConfigPreview.DisplayValue | workspace/src/app/views/shared/TaskConfig/TaskConfigPreview.tsx:69-83 | reading the display value throws exactly on null; otherwise the result is not null and no larger than the value |
| TaskConfigPreview.DisplayValueSpec | workspace/src/app/views/shared/TaskConfig/TaskConfigPreview.tsx:69-83 | `null` throws and any other non-object shows as itself; for an object, in order of preference, a string label, then a string value, then a truthy value, and without those the object itself |
| TaskConfigPreview.Kept | workspace/src/app/views/shared/TaskConfig/TaskConfigPreview.tsx:42-47 | the filter throws exactly when some key has no description; otherwise it keeps exactly the entries of listed parameters |
| TaskConfigPreview.TaskValuesRec | workspace/src/app/views/shared/TaskConfig/TaskConfigPreview.tsx:37-60 | the recursion writes into the result exactly the writes of the flattened entries, or throws when they do |
| TaskConfigPreview.EntryWritesContain | workspace/src/app/views/shared/TaskConfig/TaskConfigPreview.tsx:48-59 | each kept entry contributes: an atomic display value under the prefix and its title, an object through all the writes of its nested level under its title and ": " |
| TaskConfigPreview.TaskValuesWrites | workspace/src/app/views/shared/TaskConfig/TaskConfigPreview.tsx:48-61 | a listed top-level parameter appears under its title, or contributes its nested entries as "title: inner title" |
| TaskConfigPreview.TaskValuesLastWriteWins | workspace/src/app/views/shared/TaskConfig/TaskConfigPreview.tsx:33-62 | each label reads the last value written under it |
| TaskConfigPreview.NonBlank | workspace/src/app/views/shared/TaskConfig/TaskConfigPreview.tsx:89-91 | trimming throws exactly when some value is not a string; otherwise exactly the string values that are not blank are kept |
| TaskConfigPreview.TaskConfigPreviewSpec | workspace/src/app/views/shared/TaskConfig/TaskConfigPreview.tsx:26-105 | no task data shows "no preview"; otherwise the preview lists exactly the flattened values that are non-blank strings, and fails when flattening fails |
| ParameterWidget.ErrorMessageSpec | workspace/src/app/views/shared/modals/CreateArtefactModal/ArtefactForms/ParameterWidget.tsx:44-54 | a message is shown exactly for pattern and required errors; it starts with the parameter's title and ends with a full stop |
| ParameterWidget.SiblingPrefixOfNested | workspace/src/app/views/shared/modals/CreateArtefactModal/ArtefactForms/ParameterWidget.tsx:74-75 | cutting a nested parameter's id off its form id leaves the parent's form id and a dot |
| ParameterWidget.SiblingPrefixOfTopLevel | workspace/src/app/views/shared/modals/CreateArtefactModal/ArtefactForms/ParameterWidget.tsx:74-75 | a top-level parameter's siblings have no prefix |
| ParameterWidget.SelectDependentValues | workspace/src/app/views/shared/modals/CreateArtefactModal/ArtefactForms/ParameterWidget.tsx:72-82 | at most one value per dependency |
| ParameterWidget.SelectDependentValuesSpec | workspace/src/app/views/shared/modals/CreateArtefactModal/ArtefactForms/ParameterWidget.tsx:72-82 | every selected value is the non-empty value of some dependency's sibling; when all are set, each is listed in dependency order |
| ParameterWidget.DescriptionPlacement | workspace/src/app/views/shared/modals/CreateArtefactModal/ArtefactForms/ParameterWidget.tsx:151-153 | a description of at most 40 characters is the tooltip, a longer one the helper text, never both, and a missing or empty one neither |
| ParameterWidget.InitialValueSpec | workspace/src/app/views/shared/modals/CreateArtefactModal/ArtefactForms/ParameterWidget.tsx:162-166 | the auto-completion starts from the form's initial value when it is set and not empty, and from the default otherwise |
| ParameterWidget.NestedWidgets | workspace/src/app/views/shared/modals/CreateArtefactModal/ArtefactForms/ParameterWidget.tsx:125-141 | one nested widget per property, in order |
| ParameterWidget.WidgetFieldIds | workspace/src/app/views/shared/modals/CreateArtefactModal/ArtefactForms/ParameterWidget.tsx:113-180 | every field below a parameter's widget has a form id that starts with the parameter's own; below an object parameter it starts with that id and a dot |
| ParameterWidget.NestedFieldIds | workspace/src/app/views/shared/modals/CreateArtefactModal/ArtefactForms/ParameterWidget.tsx:125-141 | every field of the nested widgets starts with the parent's form id and a dot |
| ParameterWidget.FieldWidgetSpec | workspace/src/app/views/shared/modals/CreateArtefactModal/ArtefactForms/ParameterWidget.tsx:145-179 | a field is labelled with the title, marked "required" exactly when required, auto-completes exactly when the parameter has an auto-completion, and shows a message only when the form has an error for it |
| RecentlyViewedModal.ItemLabelSpec | workspace/src/app/views/shared/modals/RecentlyViewedModal.tsx:78-82 | "task (project)" when the item has a task label or id, the project label or id alone otherwise |
| RecentlyViewedModal.OnSearch | workspace/src/app/views/shared/modals/RecentlyViewedModal.tsx:84-91 | the search never returns more items than are loaded |
| RecentlyViewedModal.OnSearchSpec | workspace/src/app/views/shared/modals/RecentlyViewedModal.tsx:84-91 | every matching item is kept and every other item dropped; without words the list is unchanged |
| RecentlyViewedModal.OnSearchConcat | workspace/src/app/views/shared/modals/RecentlyViewedModal.tsx:84-91 | searching two lists one after the other gives their results one after the other |
| RecentlyViewedModal.OnSearchPreservesOrder | workspace/src/app/views/shared/modals/RecentlyViewedModal.tsx:84-91 | the filter keeps order: a single item is kept exactly when it matches, and a list's result is its parts' results in the same order |
| RecentlyViewedModal.SwapCurrentFirstSpec | workspace/src/app/views/shared/modals/RecentlyViewedModal.tsx:40-47 | the loaded list is only reordered: the first two items are exchanged exactly when the first is the current page, the rest stay in place |
| RecentlyViewedModal.RecentlyViewedModal.constructor | workspace/src/app/views/shared/modals/RecentlyViewedModal.tsx:27-30 | the dialog starts closed, with no items, not loading and no error |
| RecentlyViewedModal.RecentlyViewedModal.Open | workspace/src/app/views/shared/modals/RecentlyViewedModal.tsx:66-69 | the hot key opens the dialog and changes nothing else |
| RecentlyViewedModal.RecentlyViewedModal.Close | workspace/src/app/views/shared/modals/RecentlyViewedModal.tsx:70 | closing changes nothing else |
| RecentlyViewedModal.RecentlyViewedModal.LoadRecentItems | workspace/src/app/views/shared/modals/RecentlyViewedModal.tsx:35-58 | a loaded list is stored with the current page moved out of first place; a fetch error with a response is shown; any other failure is rethrown; loading is off afterwards |
| RecentlyViewedModal.RecentlyViewedModal.OnChange | workspace/src/app/views/shared/modals/RecentlyViewedModal.tsx:71-77 | the dialog closes, and a navigation to the first link's path happens exactly when there is a link |
| RecentlyViewedModal.GlobalSearch | workspace/src/app/views/shared/modals/RecentlyViewedModal.tsx:109-117 | the extra entry's only link searches the workspace for the encoded query, and it has an empty label and key |
| RelatedItems.SizeInfoSpec | workspace/src/app/views/shared/RelatedItems/RelatedItems.tsx:59-69 | nothing without related items; the total alone when every item is listed; otherwise the listed number and the total |
| RelatedItems.PageStarts | workspace/src/app/views/shared/RelatedItems/RelatedItems.tsx:100 | page starts are non-negative and one page's end is the next one's start |
| RelatedItems.PageItemsSpec | workspace/src/app/views/shared/RelatedItems/RelatedItems.tsx:99-100 | a page is the contiguous run from (current - 1) * limit, cut at the end of the list, of at most limit items |
| RelatedItems.PagesAdjoin | workspace/src/app/views/shared/RelatedItems/RelatedItems.tsx:99-100 | consecutive pages follow one another without gap or overlap |
| RelatedItems.RelatedItemsWidget.constructor | workspace/src/app/views/shared/RelatedItems/RelatedItems.tsx:38-41 | loading, with no items, total 0, no query, page 1 of size 5 |
| RelatedItems.RelatedItemsWidget.GetRelatedItemsData | workspace/src/app/views/shared/RelatedItems/RelatedItems.tsx:48-56 | a response with items replaces the data and the total, keeping the page and its size; loading is off afterwards |
| RelatedItems.RelatedItemsWidget.SearchFired | workspace/src/app/views/shared/RelatedItems/RelatedItems.tsx:71-73 | only the query changes |
| RelatedItems.RelatedItemsWidget.OnChangeSelect | workspace/src/app/views/shared/RelatedItems/RelatedItems.tsx:77-79 | the page and page size change, the total stays |
| RelatedItems.AfterLoad | workspace/src/app/views/shared/RelatedItems/RelatedItems.tsx:90-145 | after a response the pagination shows exactly when more items arrived than min(total, 5), the search box exactly when there are related items or a query, and a page never exceeds the page size |
| SuggestionList.AutoCandidate | silk-react-components/src/HierarchicalMapping/containers/SuggestionNew/SuggestionList.tsx:131-140 | the generated candidate has an empty uri, the type "value" and the generated mark |
| SuggestionList.FirstSelected | silk-react-components/src/HierarchicalMapping/containers/SuggestionNew/SuggestionList.tsx:164 | a selected candidate is found exactly when some candidate is selected, and it is one of them |
| SuggestionList.KeptCandidates | silk-react-components/src/HierarchicalMapping/containers/SuggestionNew/SuggestionList.tsx:103-128 | the candidates keep their number; outside the selection every mark is cleared, inside it each takes its remembered type and is selected exactly when it is the remembered target |
| SuggestionList.SelectFallbackSpec | silk-react-components/src/HierarchicalMapping/containers/SuggestionNew/SuggestionList.tsx:143-147 | the fallback fails only on an empty list; otherwise something is selected, an existing selection is kept, and without one exactly the first candidate is selected |
| SuggestionList.InitRowShape | silk-react-components/src/HierarchicalMapping/containers/SuggestionNew/SuggestionList.tsx:99-149 | initialising a row fails only for a row without candidates outside a dataset; otherwise it keeps its source, a dataset row gets one generated candidate, preselected exactly when it had no candidates, and some candidate is selected |
| SuggestionList.InitRowUnselectedSource | silk-react-components/src/HierarchicalMapping/containers/SuggestionNew/SuggestionList.tsx:103-112 | an unselected source starts with its first candidate selected and the others not, each with its own type |
| SuggestionList.InitRowSelectedSource | silk-react-components/src/HierarchicalMapping/containers/SuggestionNew/SuggestionList.tsx:114-128 | a selected source takes each candidate's remembered type and, when its remembered target is still offered, exactly that target is selected |
| SuggestionList.RemoveSource | silk-react-components/src/HierarchicalMapping/containers/SuggestionNew/SuggestionList.tsx:180-182 | the selection without the source, nothing else removed |
| SuggestionList.UpdateRelationsSpec | silk-react-components/src/HierarchicalMapping/containers/SuggestionNew/SuggestionList.tsx:163-175 | both maps gain exactly the selected candidate's pair and keep their other keys and unique keys; the update fails exactly when no candidate is selected |
| SuggestionList.RelateAll | silk-react-components/src/HierarchicalMapping/containers/SuggestionNew/SuggestionList.tsx:196-202 | rows are related in turn, all of them unless one fails |
| SuggestionList.RelateAllSpec | silk-react-components/src/HierarchicalMapping/containers/SuggestionNew/SuggestionList.tsx:196-202 | relating fails exactly at the first row without a selected candidate; otherwise every row's source and selected target are recorded and keys stay unique |
| SuggestionList.RelationsKept | silk-react-components/src/HierarchicalMapping/containers/SuggestionNew/SuggestionList.tsx:166-174 | relating never forgets a source or a target |
| SuggestionList.Sources | silk-react-components/src/HierarchicalMapping/containers/SuggestionNew/SuggestionList.tsx:199-202 | the page rows' sources, in order |
| SuggestionList.FindRow | silk-react-components/src/HierarchicalMapping/containers/SuggestionNew/SuggestionList.tsx:216 | a row is found exactly when one has the source, and it has that source |
| SuggestionList.FindRowIndex | silk-react-components/src/HierarchicalMapping/containers/SuggestionNew/SuggestionList.tsx:335 | the position found holds a row of the source; none is found only when no row has it |
| SuggestionList.SelectRows | silk-react-components/src/HierarchicalMapping/containers/SuggestionNew/SuggestionList.tsx:195-203 | the loop records the rows' relations exactly as relating them does and fails exactly when that does; the selection becomes the page's sources, or on a failure from an empty selection the sources up to the failing row, and otherwise stays |
| SuggestionList.AddedRows | silk-react-components/src/HierarchicalMapping/containers/SuggestionNew/SuggestionList.tsx:215-225 | one added row per selected source |
| SuggestionList.AddedRowsSpec | silk-react-components/src/HierarchicalMapping/containers/SuggestionNew/SuggestionList.tsx:215-225 | each added row is the selected candidate of its source's first row, or missing when there is no such row |
| SuggestionList.AutogeneratedPresentSpec | silk-react-components/src/HierarchicalMapping/containers/SuggestionNew/SuggestionList.tsx:227-230 | a generated target is found exactly when one comes before any missing row; "none" only when every row is there with a real target |
| SuggestionList.AutogeneratedSelectedSpec | silk-react-components/src/HierarchicalMapping/containers/SuggestionNew/SuggestionList.tsx:280-286 | the `some` over the selected sources answers no exactly when every source answers no; otherwise it answers what the first other source answers: yes, or the failure of a row without a selected candidate |
| SuggestionList.HandleAddSpec | silk-react-components/src/HierarchicalMapping/containers/SuggestionNew/SuggestionList.tsx:214-242 | the prefix dialog opens instead of adding exactly when a selected target is generated and no prefix was given; otherwise every selected row is handed over |
| SuggestionList.TargetsAsSelected | silk-react-components/src/HierarchicalMapping/containers/SuggestionNew/SuggestionList.tsx:297-303 | one entry per selected source |
| SuggestionList.Swapped | silk-react-components/src/HierarchicalMapping/containers/SuggestionNew/SuggestionList.tsx:311 | every entry with key and value exchanged |
| SuggestionList.InvertSpec | silk-react-components/src/HierarchicalMapping/containers/SuggestionNew/SuggestionList.tsx:311 | the inverse maps each value to a key holding it and every value of the map is a key of the inverse |
| SuggestionList.InvertInvolution | silk-react-components/src/HierarchicalMapping/containers/SuggestionNew/SuggestionList.tsx:311-318 | when every source has its own target, swapping twice gives the original map back |
| SuggestionList.ReKeySpec | silk-react-components/src/HierarchicalMapping/containers/SuggestionNew/SuggestionList.tsx:310-316 | every target's type is filed under that target's source, and every type under a source belongs to a target of that source |
| SuggestionList.SwapKeepsUnique | silk-react-components/src/HierarchicalMapping/containers/SuggestionNew/SuggestionList.tsx:310-319 | both swapped maps list each key once |
| SuggestionList.ToggledFilterSpec | silk-react-components/src/HierarchicalMapping/containers/SuggestionNew/SuggestionList.tsx:262-270 | the column's filter is removed when it was this action and set to it otherwise; no other column changes |
| SuggestionList.ToggledFilterTwice | silk-react-components/src/HierarchicalMapping/containers/SuggestionNew/SuggestionList.tsx:262-270 | the same action twice on a column without a filter leaves every filter as it was |
| SuggestionList.NextSort | silk-react-components/src/HierarchicalMapping/containers/SuggestionNew/SuggestionList.tsx:244-251 | the direction is for the given column; descending exactly after ascending, ascending otherwise |
| SuggestionList.NextSortTwice | silk-react-components/src/HierarchicalMapping/containers/SuggestionNew/SuggestionList.tsx:244-251 | sorting a column twice from ascending comes back to ascending |
| SuggestionList.SwappedHeaders | silk-react-components/src/HierarchicalMapping/containers/SuggestionNew/SuggestionList.tsx:321-324 | the source and target headers are exchanged, the others stay; the same headers |
| SuggestionList.SuggestionTable.constructor | silk-react-components/src/HierarchicalMapping/containers/SuggestionNew/SuggestionList.tsx:48-94 | the table starts with the four initial headers, page 1 of size 25, and no rows, selection, maps, sort, filters or dialogs |
| SuggestionList.SuggestionTable.InitRows | silk-react-components/src/HierarchicalMapping/containers/SuggestionNew/SuggestionList.tsx:96-161 | every row initialised, then filtered, sorted and paged with the current settings; a row that cannot be initialised aborts with nothing stored |
| SuggestionList.SuggestionTable.ToggleRowSelect | silk-react-components/src/HierarchicalMapping/containers/SuggestionNew/SuggestionList.tsx:177-190 | a selected source is deselected; any other is appended and its selected target recorded |
| SuggestionList.SuggestionTable.ToggleSelectAll | silk-react-components/src/HierarchicalMapping/containers/SuggestionNew/SuggestionList.tsx:192-205 | with everything selected the selection is cleared; otherwise every page row's target is recorded and the page's sources become the selection |
| SuggestionList.SuggestionTable.HandlePageChange | silk-react-components/src/HierarchicalMapping/containers/SuggestionNew/SuggestionList.tsx:207-212 | the new page of the filtered rows |
| SuggestionList.SuggestionTable.HandleAdd | silk-react-components/src/HierarchicalMapping/containers/SuggestionNew/SuggestionList.tsx:214-242 | the outcome of adding, and the prefix dialog opened exactly when it asks for a prefix |
| SuggestionList.SuggestionTable.HandleSort | silk-react-components/src/HierarchicalMapping/containers/SuggestionNew/SuggestionList.tsx:244-260 | the next direction, and the page of the filtered rows sorted so |
| SuggestionList.SuggestionTable.HandleFilterColumn | silk-react-components/src/HierarchicalMapping/containers/SuggestionNew/SuggestionList.tsx:262-277 | the column's filter toggled and no other, then all rows filtered again and paged |
| SuggestionList.SuggestionTable.HandleConfirmSwap | silk-react-components/src/HierarchicalMapping/containers/SuggestionNew/SuggestionList.tsx:296-331 | the selection becomes the selected targets, the page is emptied, source to target inverted, target to type re-keyed by source, the headers exchanged and the warning closed; a failing row changes nothing |
| SuggestionList.SuggestionTable.SwapHeaders | silk-react-components/src/HierarchicalMapping/containers/SuggestionNew/SuggestionList.tsx:321-326 | the header array is exchanged in place |
| SuggestionList.SuggestionTable.HandleSwap | silk-react-components/src/HierarchicalMapping/containers/SuggestionNew/SuggestionList.tsx:279-294 | a selected generated target opens the warning; otherwise the swap is confirmed at once |
| SuggestionList.SuggestionTable.HandleModifyTarget | silk-react-components/src/HierarchicalMapping/containers/SuggestionNew/SuggestionList.tsx:333-344 | the row of the source gets the new candidates and its relation is recorded; an unknown source changes nothing and a failing update changes nothing |
| AutoSuggestion.AllSuggestionsSpec | silk-react-components/src/HierarchicalMapping/components/AutoSuggestion/AutoSuggestion.tsx:49-51 | the suggestions are exactly the replacements of the results, none added or lost |
| AutoSuggestion.AllSuggestionsConcat | silk-react-components/src/HierarchicalMapping/components/AutoSuggestion/AutoSuggestion.tsx:49-51 | concatenating results concatenates their suggestions |
| AutoSuggestion.ResultEntries | silk-react-components/src/HierarchicalMapping/components/AutoSuggestion/AutoSuggestion.tsx:52-60 | one entry per replacement of the result: its value with the result's interval |
| AutoSuggestion.IndexEntriesSpec | silk-react-components/src/HierarchicalMapping/components/AutoSuggestion/AutoSuggestion.tsx:49-62 | the entries hold exactly the values some result offers, the last of them with the interval of the last result offering it |
| AutoSuggestion.HasKeyConcat | silk-react-components/src/HierarchicalMapping/components/AutoSuggestion/AutoSuggestion.tsx:53-59 | a key is in a concatenation exactly when it is in one of the parts |
| AutoSuggestion.IndexesDictSpec | silk-react-components/src/HierarchicalMapping/components/AutoSuggestion/AutoSuggestion.tsx:44-62 | the dictionary gives a value some result offers the interval of the last such result, and any other value nothing |
| AutoSuggestion.HidesDropdownWithSuggestions | silk-react-components/src/HierarchicalMapping/components/AutoSuggestion/AutoSuggestion.tsx:45-47 | as written, one result that does offer a replacement still hides the dropdown |
| AutoSuggestion.HidesDropdownOnlyWithoutSuggestions | silk-react-components/src/HierarchicalMapping/components/AutoSuggestion/AutoSuggestion.tsx:45-47 | with the intended test the dropdown is hidden only when there is nothing to suggest, and such data is hidden by the written test too |
| AutoSuggestion.SpliceSpec | silk-react-components/src/HierarchicalMapping/components/AutoSuggestion/AutoSuggestion.tsx:99-104 | over an interval inside the text the suggestion takes exactly the interval's place: the text before and after is kept and the length changes by the difference |
| AutoSuggestion.SpliceSame | silk-react-components/src/HierarchicalMapping/components/AutoSuggestion/AutoSuggestion.tsx:99-104 | splicing in the text that is already there changes nothing |
| AutoSuggestion.AutoSuggestionBox.constructor | silk-react-components/src/HierarchicalMapping/components/AutoSuggestion/AutoSuggestion.tsx:20-30 | empty text and input, cursor 0, dropdown closed, no suggestions and an empty dictionary |
| AutoSuggestion.AutoSuggestionBox.OnData | silk-react-components/src/HierarchicalMapping/components/AutoSuggestion/AutoSuggestion.tsx:42-66 | one result without replacements hides the dropdown; suggestions and dictionary are replaced only when there is a result; the text is untouched |
| AutoSuggestion.AutoSuggestionBox.SyncInput | silk-react-components/src/HierarchicalMapping/components/AutoSuggestion/AutoSuggestion.tsx:68-73 | the input catches up with the text and the dropdown opens; validity and editor parameters are reported for the previous input |
| AutoSuggestion.AutoSuggestionBox.HandleChange | silk-react-components/src/HierarchicalMapping/components/AutoSuggestion/AutoSuggestion.tsx:75-77 | only the text changes |
| AutoSuggestion.AutoSuggestionBox.HandleCursorChange | silk-react-components/src/HierarchicalMapping/components/AutoSuggestion/AutoSuggestion.tsx:79-82 | only the cursor column changes |
| AutoSuggestion.AutoSuggestionBox.HandleDropdownChange | silk-react-components/src/HierarchicalMapping/components/AutoSuggestion/AutoSuggestion.tsx:94-108 | a suggestion in the dictionary is spliced in over its interval, the dropdown closes and the cursor goes to the interval's end; any other choice changes nothing |
| AutoSuggestion.AutoSuggestionBox.HandleInputEditorClear | silk-react-components/src/HierarchicalMapping/components/AutoSuggestion/AutoSuggestion.tsx:110-114 | the text is emptied exactly while the path is invalid |
| ErrorHandler.RegisterErrorSpec | workspace/src/app/hooks/useErrorHandler.tsx:41-98 | only a fetch error without a response fails; an ignorable error registers nothing; a 503 registers one warning under the fixed id without a cause; a 404 registers nothing; anything else registers the caller's id, message and cause and shows the message as a warning |
| ErrorHandler.TemporarilyUnavailableIgnoresCaller | workspace/src/app/hooks/useErrorHandler.tsx:54-69 | a 503 is registered the same whatever id and message the caller passes |
| ErrorHandler.MissingCauseRegistered | workspace/src/app/hooks/useErrorHandler.tsx:41-86 | an error without a cause is always registered as given |
| ErrorHandler.DispatchedIffNotified | workspace/src/app/hooks/useErrorHandler.tsx:51-77 | something is dispatched exactly when a notification is returned, and never for an ignorable error or a 404 |
| ErrorHandler.ClearErrors | workspace/src/app/hooks/useErrorHandler.tsx:109-111 | the action carries the given ids unchanged, none meaning every error |
| PageHeader.GeneratedPageTitle | workspace/src/app/views/shared/PageHeader/PageHeader.tsx:91-94 | the last breadcrumb's text when the title is generated from at least one breadcrumb, and "" otherwise |
| PageHeader.ParentTexts | workspace/src/app/views/shared/PageHeader/PageHeader.tsx:101-103 | the texts of all breadcrumbs but the last, in order |
| PageHeader.JoinSpec | workspace/src/app/views/shared/PageHeader/PageHeader.tsx:101-104 | a joined list starts with its first part, followed by the separator when there are two or more parts |
| PageHeader.TypeInfoSpec | workspace/src/app/views/shared/PageHeader/PageHeader.tsx:97 | the type information is "(type)" exactly when a type is set |
| PageHeader.PositionSpec | workspace/src/app/views/shared/PageHeader/PageHeader.tsx:98-105 | the position is there exactly when there is more than one breadcrumb, and then starts with "at " and the first breadcrumb's text |
| PageHeader.ConcatEnds | workspace/src/app/views/shared/PageHeader/PageHeader.tsx:111 | a concatenation starts with its first part and ends with its second |
| PageHeader.WindowTitleSpec | workspace/src/app/views/shared/PageHeader/PageHeader.tsx:96-112 | the window title starts with the shown title and a space; the branding is there exactly when either name is set, and then ends the title |
| PageHeader.BreadcrumbClick | workspace/src/app/views/shared/PageHeader/PageHeader.tsx:84-89 | clicking a breadcrumb navigates exactly when it has a link, to that link with no labels |
| PageHeader.GetDepictionIcons | workspace/src/app/views/shared/PageHeader/PageHeader.tsx:114-123 | at most two icons: "artefact-" and the lower-cased type first when a type is set, the alternative depiction last when set |
| PageHeader.MergeSpec | workspace/src/app/views/shared/PageHeader/PageHeader.tsx:164-166 | merging an update is idempotent, the empty update changes nothing, and two merges in a row are one merge of the combined update |
| PageHeader.PageHeaderHook.constructor | workspace/src/app/views/shared/PageHeader/PageHeader.tsx:161-162 | the hook starts from the given properties |
| PageHeader.PageHeaderHook.UpdatePageHeader | workspace/src/app/views/shared/PageHeader/PageHeader.tsx:164-166 | the update's present fields replace the properties' |
| PageHeader.PageHeaderHook.UpdateType | workspace/src/app/views/shared/PageHeader/PageHeader.tsx:171-173 | only the type changes |
| PageHeader.PageHeaderHook.UpdatePageTitle | workspace/src/app/views/shared/PageHeader/PageHeader.tsx:174-176 | a given title replaces the generated one, so the header shows the given title or nothing |
| PageHeader.PageHeaderHook.UpdateBreadcrumbs | workspace/src/app/views/shared/PageHeader/PageHeader.tsx:177-179 | given breadcrumbs replace the fetched ones: the header no longer fetches its own |
| PageHeader.PageHeaderHook.UpdateActionsMenu | workspace/src/app/views/shared/PageHeader/PageHeader.tsx:180-182 | only the actions menu changes |
| ViewHeader.GeneratedPagetitle | workspace/src/app/views/layout/Header/ViewHeader.tsx:111-114 | reading the last breadcrumb's text fails exactly when the title is generated and that breadcrumb has no text; otherwise it is the page header's generated title |
| ViewHeader.WindowTitleSpec | workspace/src/app/views/layout/Header/ViewHeader.tsx:142-155 | the view header's window title always ends with " — " and the interpolated corporation and suite functions |
| ViewHeader.WindowTitleShowsFunctionText | workspace/src/app/views/layout/Header/ViewHeader.tsx:152 | as written the title shows the imported functions' text, which holds a parenthesis, so for names without one it differs from the title with the names |
| ViewHeader.IntendedTitleIsPageHeaders | workspace/src/app/views/layout/Header/ViewHeader.tsx:142-155 | with the functions called, the title ends with the names and, whenever either name is set, equals the page header's window title |
| ViewHeader.GetDepictionIcons | workspace/src/app/views/layout/Header/ViewHeader.tsx:157-166 | "artefact-" and the type as given (not lower-cased) first when a type is set, the alternative depiction last when set |
| ViewHeader.RenderMenuFrom | workspace/src/app/views/layout/Header/ViewHeader.tsx:116-140 | one entry per item |
| ViewHeader.RenderMenuFromSpec | workspace/src/app/views/layout/Header/ViewHeader.tsx:116-140 | each item becomes one entry at its own position, keyed by that position and with its text: a sub-menu with one child per subitem exactly when it has subitems, an action otherwise |
| ViewHeader.RenderedActionsFrom | workspace/src/app/views/layout/Header/ViewHeader.tsx:116-140 | rendering loses no action and invents none: the rendered menu offers exactly the leaf actions, in order, with their text, handler and disabled flag |
| ViewHeader.RenderedActionsOfItem | workspace/src/app/views/layout/Header/ViewHeader.tsx:117-138 | one item's rendered actions are exactly its leaf actions |
| ViewHeader.SecondaryButton | workspace/src/app/views/layout/Header/ViewHeader.tsx:209-233 | a secondary action becomes an icon button named by its icon or "undefined", keyed by its text, with each flag set exactly when it is true |
| ViewHeader.ViewHeaderHook.constructor | workspace/src/app/views/layout/Header/ViewHeader.tsx:246-249 | the hook starts from the given type, title and breadcrumbs |
| ViewHeader.ViewHeaderHook.Rendered | workspace/src/app/views/layout/Header/ViewHeader.tsx:256-268 | with automatic breadcrumbs the header fetches its own and gets none from the hook |
| ViewHeader.ViewHeaderHook.UpdateType | workspace/src/app/views/layout/Header/ViewHeader.tsx:272 | only the type changes |
| ViewHeader.ViewHeaderHook.UpdatePagetitle | workspace/src/app/views/layout/Header/ViewHeader.tsx:273 | only the title changes |
| ViewHeader.ViewHeaderHook.UpdateBreadcrumbs | workspace/src/app/views/layout/Header/ViewHeader.tsx:274 | new breadcrumbs reach the header only when it does not fetch its own |
| ItemDepiction.IconNamesSpec | workspace/src/app/views/shared/ItemDepiction/ItemDepiction.tsx:9-22 | the de-duplication never removes a name: one "artefact-" icon for the plugin (prefixed by the type when set) and a second one for the type when set |
| CreateArtefactModal.TrimNoWhitespace | workspace/src/app/views/shared/modals/CreateArtefactModal/CreateArtefactModal.tsx:173-176 | trimming a text without whitespace keeps it |
| CreateArtefactModal.BlankSearchShowsProject | workspace/src/app/views/shared/modals/CreateArtefactModal/CreateArtefactModal.tsx:173-177 | a blank search shows the project entry |
| CreateArtefactModal.OneWordSearch | workspace/src/app/views/shared/modals/CreateArtefactModal/CreateArtefactModal.tsx:173-177 | a single lower-case word shows the project entry exactly when it occurs in "project" |
| CreateArtefactModal.ListWithProject | workspace/src/app/views/shared/modals/CreateArtefactModal/CreateArtefactModal.tsx:179-191 | the project entry comes first exactly when the search matches it, followed by the item types as loaded |
| CreateArtefactModal.IconNamesOf | workspace/src/app/views/shared/modals/CreateArtefactModal/CreateArtefactModal.tsx:200-203 | one "artefact-" icon name per name, in order |
| CreateArtefactModal.DedupPrefix | workspace/src/app/views/shared/modals/CreateArtefactModal/CreateArtefactModal.tsx:204 | de-duplicating a longer list keeps the de-duplication of its front as its front |
| CreateArtefactModal.DepictionSpec | workspace/src/app/views/shared/modals/CreateArtefactModal/CreateArtefactModal.tsx:193-208 | the item's own icon first and, for a task, its type second, exactly as the item depiction; then each category's icon, every icon once and none from elsewhere |
| CreateArtefactModal.TaskType | workspace/src/app/views/shared/modals/CreateArtefactModal/CreateArtefactModal.tsx:105-111 | "Project" for the project; any other type's task type from its cached description, failing exactly when none is cached |
| CreateArtefactModal.AddActionFor | workspace/src/app/views/shared/modals/CreateArtefactModal/CreateArtefactModal.tsx:67-72 | "Add" selects the project for its form and fetches the properties of any other type |
| CreateArtefactModal.DateNowRecordsTime | workspace/src/app/views/shared/modals/CreateArtefactModal/CreateArtefactModal.tsx:97 | handing the state setter `Date.now` itself records the time of the click, exactly as handing it the current time would, whatever was recorded before |
| CreateArtefactModal.DoubleClickFires | workspace/src/app/views/shared/modals/CreateArtefactModal/CreateArtefactModal.tsx:88-92 | with a click recorded, a click on the selected entry 499 ms later is a double click and one 500 ms later is not; a click on another entry, or with no click recorded, never is |
| CreateArtefactModal.ArtefactSelection.constructor | workspace/src/app/views/shared/modals/CreateArtefactModal/CreateArtefactModal.tsx:51-52 | the selection starts as the store's selected type, with no click and no search |
| CreateArtefactModal.ArtefactSelection.DefaultArtefactSelected | workspace/src/app/views/shared/modals/CreateArtefactModal/CreateArtefactModal.tsx:61-65 | once item types are loaded the first one is selected |
| CreateArtefactModal.ArtefactSelection.HandleArtefactSelect | workspace/src/app/views/shared/modals/CreateArtefactModal/CreateArtefactModal.tsx:87-98 | a second click on the selected entry within 500 ms adds it; any other click selects the entry; the click time is recorded |
| CreateArtefactModal.ArtefactSelection.HandleSearch | workspace/src/app/views/shared/modals/CreateArtefactModal/CreateArtefactModal.tsx:74-81 | only the query changes |
| CreateArtefactModal.ArtefactSelection.ResetModal | workspace/src/app/views/shared/modals/CreateArtefactModal/CreateArtefactModal.tsx:143-146 | the selection becomes the empty object, so "Add" is disabled |
| CreateArtefactModal.DoubleClickAdds | workspace/src/app/views/shared/modals/CreateArtefactModal/CreateArtefactModal.tsx:87-98 | two clicks on one entry within the limit: the first selects it, the second adds it |
| FacetsList.Preview | workspace/src/app/views/pages/Workspace/Filterbar/FacetsList.tsx:24 | the first at most five values, a prefix of the values |
| FacetsList.PreviewEntries | workspace/src/app/views/pages/Workspace/Filterbar/FacetsList.tsx:23-25 | one entry per facet, in order: its id and its preview |
| FacetsList.VisibleAfterLoad | workspace/src/app/views/pages/Workspace/Filterbar/FacetsList.tsx:21-27 | after loading, a facet id shows the preview of the last facet with that id and ids of no facet are absent; with distinct ids every facet shows its own preview, in order |
| FacetsList.IsCheckedSpec | workspace/src/app/views/pages/Workspace/Filterbar/FacetsList.tsx:29-35 | a value is checked exactly when the first applied facet with that id holds it |
| FacetsList.VisibleAfterSpec | workspace/src/app/views/pages/Workspace/Filterbar/FacetsList.tsx:41-54 | toggling expands an untoggled facet to all its values, collapses a toggled one to its preview, and touches no other facet |
| FacetsList.RemoveAtSpec | workspace/src/app/views/pages/Workspace/Filterbar/FacetsList.tsx:47 | removing one element of a list without repeats leaves exactly the others, without repeats |
| FacetsList.ToggledAfterSpec | workspace/src/app/views/pages/Workspace/Filterbar/FacetsList.tsx:42-51 | the toggled list stays without repeats, holds the facet exactly when it did not before, and keeps every other facet as it was |
| FacetsList.ToggleTwice | workspace/src/app/views/pages/Workspace/Filterbar/FacetsList.tsx:41-54 | toggling a facet twice restores the toggled list and shows the facet's preview again |
| FacetsList.ShowMoreText | workspace/src/app/views/pages/Workspace/Filterbar/FacetsList.tsx:80-88 | no link with at most five values; otherwise "Show less..." exactly when the facet is expanded, "Show more..." when not |
| FacetsList.VisiblesOnly | workspace/src/app/views/pages/Workspace/Filterbar/FacetsList.tsx:22-25 | the loop writes each facet's preview in order, giving exactly the loaded visible values |
| FacetsList.FacetsView.constructor | workspace/src/app/views/pages/Workspace/Filterbar/FacetsList.tsx:13-17 | the view starts with the store's facets and applied facets, nothing visible and nothing toggled |
| FacetsList.FacetsView.FacetsLoaded | workspace/src/app/views/pages/Workspace/Filterbar/FacetsList.tsx:21-27 | new facets show their previews; the toggled list stays |
| FacetsList.FacetsView.ToggleShowMore | workspace/src/app/views/pages/Workspace/Filterbar/FacetsList.tsx:41-54 | the facet is toggled in the list and its visible values follow; nothing else changes |
| TaskForm.ValueRestriction | workspace/src/app/views/shared/modals/CreateArtefactModal/ArtefactForms/TaskForm.tsx:60-71 | an integer parameter, and only that, gets the digits-only pattern |
| TaskForm.CurrentValue | workspace/src/app/views/shared/modals/CreateArtefactModal/ArtefactForms/TaskForm.tsx:108-119 | the existing value when updating and there is one, the default value otherwise |
| TaskForm.RegistrationsFromConcat | workspace/src/app/views/shared/modals/CreateArtefactModal/ArtefactForms/TaskForm.tsx:89-126 | registering two lists of parameters registers the first and then the second |
| TaskForm.KeysOf | workspace/src/app/views/shared/modals/CreateArtefactModal/ArtefactForms/TaskForm.tsx:109 | the registered keys, in order |
| TaskForm.RegistrationsFromPrefix | workspace/src/app/views/shared/modals/CreateArtefactModal/ArtefactForms/TaskForm.tsx:77-127 | every key a level registers starts with its prefix and lies under one of its parameters |
| TaskForm.RegistrationsOfUnder | workspace/src/app/views/shared/modals/CreateArtefactModal/ArtefactForms/TaskForm.tsx:89-126 | every key one parameter registers is its own key or lies under it after a dot |
| TaskForm.UnderDisjoint | workspace/src/app/views/shared/modals/CreateArtefactModal/ArtefactForms/TaskForm.tsx:90-98 | keys under two different dot-free ids of one prefix never coincide |
| TaskForm.UnderShorter | workspace/src/app/views/shared/modals/CreateArtefactModal/ArtefactForms/TaskForm.tsx:90-98 | a key under a shorter id never coincides with a key under a different dot-free id |
| TaskForm.RegistrationKeysDistinct | workspace/src/app/views/shared/modals/CreateArtefactModal/ArtefactForms/TaskForm.tsx:77-127 | with ids unique per level and free of dots, no key is registered twice |
| TaskForm.RegistrationsOfDistinct | workspace/src/app/views/shared/modals/CreateArtefactModal/ArtefactForms/TaskForm.tsx:91-106 | one parameter never registers a key twice |
| TaskForm.ApplyConcat | workspace/src/app/views/shared/modals/CreateArtefactModal/ArtefactForms/TaskForm.tsx:89-126 | applying two lists of registrations is applying one and then the other |
| TaskForm.ApplySpec | workspace/src/app/views/shared/modals/CreateArtefactModal/ArtefactForms/TaskForm.tsx:109-124 | registering appends exactly the registered keys to the returned keys and gives each a rule and a value; every other field keeps its rule and value |
| TaskForm.TaskFormEffect.constructor | workspace/src/app/views/shared/modals/CreateArtefactModal/ArtefactForms/TaskForm.tsx:51-53 | no returned keys, rules, values, dependent values or form value keys |
| TaskForm.TaskFormEffect.RegisterParameters | workspace/src/app/views/shared/modals/CreateArtefactModal/ArtefactForms/TaskForm.tsx:77-127 | the level's parameters are registered exactly as its registrations say |
| TaskForm.TaskFormEffect.RegisterParameter | workspace/src/app/views/shared/modals/CreateArtefactModal/ArtefactForms/TaskForm.tsx:89-126 | one parameter is registered exactly as its registrations say |
| TaskForm.TaskFormEffect.Mount | workspace/src/app/views/shared/modals/CreateArtefactModal/ArtefactForms/TaskForm.tsx:129-134 | label and description are registered when creating, then every visible parameter; the returned keys become the form's value keys |
| TaskForm.TaskFormEffect.Cleanup | workspace/src/app/views/shared/modals/CreateArtefactModal/ArtefactForms/TaskForm.tsx:137-143 | label and description are unregistered when creating, then every returned key; nothing else changes |
| TaskForm.TaskFormEffect.HandleChange | workspace/src/app/views/shared/modals/CreateArtefactModal/ArtefactForms/TaskForm.tsx:146-162 | the value is set, and a dependency's kept value follows it |
| TaskForm.DeleteAllSpec | workspace/src/app/views/shared/modals/CreateArtefactModal/ArtefactForms/TaskForm.tsx:142 | a key is gone exactly when it is one of the deleted keys; the others keep their entries |
| TaskForm.MountThenCleanup | workspace/src/app/views/shared/modals/CreateArtefactModal/ArtefactForms/TaskForm.tsx:129-143 | mounting and then cleaning up leaves no rule for label and description (when creating) or any registered field, and every other field's rule as it was |
| TaskForm.ParamsSplit | workspace/src/app/views/shared/modals/CreateArtefactModal/ArtefactForms/TaskForm.tsx:176-177 | the visible parameters split exactly into the normal and the advanced ones |
| TaskForm.VisibleParamsSpec | workspace/src/app/views/shared/modals/CreateArtefactModal/ArtefactForms/TaskForm.tsx:55 | exactly the parameters marked visible in the dialog are shown, never more than are defined |

## Left out

- JSX rendering, CSS classes, Blueprint/Carbon components, portals, `Helmet` and React re-render mechanics (batching, effect timing, stale closures). Only the values the components compute are modelled.
- Network and I/O are not modelled: requests and thunks, `localStorage`, toasters, `console.log`/`console.warn`, and the fs/vinyl/eol pipeline of the scanner script (`getFileJSON`, `writeJsonFile`, `vfs.src`). The scanner's file contents are parameters.
- Library calls become parameters of the operations that use them:
  - `new URL` (an uninterpreted predicate);
  - `qs` / `query-string` parse and stringify;
  - `matchPath`;
  - `createMultiWordRegex` (its match index);
  - `extractSearchWords`;
  - the imported paginate, sort and filter helpers;
  - the i18n `t` function;
  - `encodeURIComponent`;
  - `Date.now` (a `now` argument);
  - `toLocaleString` and date formatting;
  - `JSON.stringify`.
- Strings are sequences of Dafny `char`s, each standing for one code unit of the Basic Multilingual Plane. Characters outside it, which JavaScript stores as surrogate pairs counted 2 by `.length`, are not modelled; the lengths and offsets the model uses (the 40-character tooltip rule of `ParameterWidget.DescriptionPlacement`, the highlight offsets of `Highlighter` and `SearchItem`, `Substring` and `Splice`) count such a character once where JavaScript counts two.
- Case mapping is ASCII-only. `toLowerCase`/`toUpperCase` of non-ASCII letters is not modelled.
- Records: JavaScript lists an object's integer-like keys (such as `"0"` or `"42"`) first, in ascending numeric order, and only then the other keys in insertion order. A record keeps insertion order for every key. So wherever an object's entries are read in order (`Object.entries` and `Object.keys` in `TaskForm`, `ParameterWidget`, `TaskConfigPreview`, `RuleOperators`, `RuleTree`, `CommonSlice`, `RouterOperations` and `I18nScanner`), the model's order differs from the program's for objects with integer-like keys. A `Map` keeps insertion order for every key, as a record does.
- Records hold own properties only. A JavaScript property read on a plain object also finds the members of `Object.prototype` (`constructor`, `toString`, `hasOwnProperty`, `__proto__` and so on), so a key with such a name behaves differently in the program; the affected members are `I18nScanner.MergeKeys`, `I18nScanner.Merged`, `I18nScanner.DeepMerge`, `TaskConfigPreview.Kept`, `TaskConfigPreview.TaskValuesRec`, `CommonSlice.Tally` and `ParameterWidget.SelectDependentValues`. For example, `deepMerge({"constructor": "x"}, {})` throws in the program because the target's inherited `constructor` is not undefined (i18next-scanner.js:108-113), where `Merged` returns a merged object; a value named `constructor` without a parameter description is filtered out by the program (TaskConfigPreview.tsx:44-46), where `Kept` reports the missing description as an error; and a category named `constructor` counts as a string in the program (commonSlice.ts:122), where `Tally` counts 1.
- JSON values (`JsonValues.Json`) have no array case, and numbers are integers only. In JavaScript `typeof [] === "object"`, so `deepMerge` would recurse into arrays index by index and `taskValuesRec` would list an array value's elements; inputs holding arrays or fractional numbers are outside the model of `I18nScanner.MergeKeys`, `I18nScanner.Merged`, `I18nScanner.DeepMerge`, `I18nScanner.MergedFiles`, `TaskConfigPreview.DisplayValue`, `TaskConfigPreview.Writes`, `TaskConfigPreview.TaskValuesRec` and `TaskConfigPreview.TaskConfigPreview`.
- Values that configuration supplies are parameters: `SERVE_PATH`, the corporation and suite names (what the imported functions return and, for `ViewHeader.WindowTitle`, also their source text, `ViewHeader.NameGetter`), and the initial global state. `constants/base`, `initialState.ts` of the global slice and `utils/transformers` are not part of this model. A parameter's `defaultValueAsJs` is its `defaultValue` field.
- The integer type name of the parameter type constants is taken to be `"int"`.
- The selectors that only project a store field (`selectors.ts:6-29`) are not modelled.
- `SearchItem`'s `item.label || item.id` fallback is not modelled, and neither is `handleTextHighlighting`.
- The FetchError classes are not part of this model. A cause is a datatype with the fields the classification reads.
- RuleOperators.RuleLayout: positions are integers; the `Math.round` of fractional canvas positions is not modelled.
- RuleOperators.FilterAndSort: `sortAlphabetically` never returns 0, so the order of operators whose lower-cased labels are equal depends on the engine's sort algorithm. The model promises only that the result is sorted by lower-cased label and is a permutation of the filtered operators.
- RuleTree.ConvertToValueInput: a `fuel` argument bounds the recursion. Running out of fuel stands for the stack overflow of the source on a cyclic input map.
- SearchItem.GetSearchHighlight: this is the corrected variant that drops empty search words (see Findings). The as-written loop does not terminate on such words, so it is modelled only by the lemmas that show it never advances.
- SuggestionList.SuggestionTable.HandleModifyTarget: candidate rows shared between the table and the page are values in the model, so aliasing between them is not captured.
- `onSwapAction`'s server round trip and the `localStorage` prefix of the suggestion table are not modelled.
- ParameterWidget: the request and the toaster of `handleAutoCompleteInput`, and the `changeHandlers` wiring, are not modelled.
- CreateArtefactModal: `handleCreate`, `handleBack`, `closeModal`, `handleSelectDType`, the choice of the artefact form, and the dialog's title and actions are not modelled. The properties request of `handleAdd` becomes an action value.
- ViewHeader's primary action button, and RecentlyViewedModal's error view and create-new-item renderer, are JSX only.
- RelatedItems: the context menu and the highlighting of the labels are not modelled.
- TaskForm.NestedValues, TaskForm.CurrentValue: the existing parameter values are given already unwrapped. The program reads `parameterValues[paramId].value` (TaskForm.tsx:99-100 and 116-118); the model's record holds that `.value` per id, so an entry without a `value` field is not distinguished from one whose value is missing.
- TaskForm: `datasetConfigPreview`, the JSX of the label and description fields, the memoised change handlers, `detectChange` and `triggerValidation` are not modelled. `register`/`setValue` become a recorded form state.
- RuleGraph.ConvertToRuleOperatorNodeMap: keeps `findCycles` as written (through `FindCyclesOutcome`), so a cycle below the single root passes the validation (see Findings). The corrected walk `FindCyclesIntended` is proved on its own and not wired into the conversion: which path it returns depends on the order the inputs are walked, and `NodeMapOutcome`, the function that specifies the conversion, does not fix that order.
- RuleGraph.FindCyclesIntended: states that no path means the rule is acyclic and that a returned path follows inputs from the root, not the converse. The walk keeps one visited set for the whole tree, not for the current path, so with the early return it also reports a node that is the input of two operators, which is not a cycle.
- LinkageRuleConfig.LinkageRuleConfigModal.SyncErrorCount: the effect that copies the error count runs as an explicit method, not at React's effect time.
- ErrorHandler: `getAllErrors` is a store read and is not modelled; dispatches into the error store become a returned list of actions.
- AutoSuggestion.AutoSuggestionBox.OnData: the corrected variant, which hides the dropdown only for a single result offering no replacement (see Findings). As written, line 45 hides it for any single result, so for one result that does offer suggestions the program closes the dropdown where this model leaves it as it was; `HidesDropdownAsWritten` and `HidesDropdownWithSuggestions` state the written test and that case.
- AutoSuggestion: the CodeMirror calls, the linting effect and the cursor coordinates are not modelled.
- FacetsList: the dispatch of `handleSetFacet` is not modelled.

## Findings

| source | as written | input that shows it | evidently intended | confidence | as-written member | corrected member |
|---|---|---|---|---|---|---|
| workspace/src/app/views/pages/Workspace/SearchList/SearchItem.tsx:63 | the query is split on whitespace with no filter for empty words, so a leading or trailing space yields an empty alternative that matches at the offset without advancing, and the highlighting loop never ends | the search value `" a"` (split gives `["", "a"]`) on any label | drop empty words, as `Highlighter.tsx` does, so every match advances | not executed | SearchItem.LeadingSpaceStalls | SearchItem.GetSearchHighlight |
| silk-react-components/src/HierarchicalMapping/components/AutoSuggestion/AutoSuggestion.tsx:45 | `replacementResults?.replacements` is read on the array of results, which has no such field, so one result always hides the dropdown, even when it offers suggestions | one replacement result offering `"name"` for the interval (0, 4) | hide the dropdown only when the single result offers no replacement | not executed | AutoSuggestion.HidesDropdownWithSuggestions | AutoSuggestion.HidesDropdownOnlyWithoutSuggestions |
| workspace/src/app/views/layout/Header/ViewHeader.tsx:152 | the application part interpolates the imported `APPLICATION_CORPORATION_NAME` and `APPLICATION_SUITE_NAME` functions themselves, while `PageHeader.tsx:107-108` calls the same imports; the window title therefore shows the functions' source text | any configuration: names `"eccenca"` and `"Corporate Memory"` returned by functions whose text holds `()` | call the functions, as the page header does | not executed | ViewHeader.WindowTitleShowsFunctionText | ViewHeader.IntendedTitleIsPageHeaders |
| workspace/src/app/views/taskViews/shared/rules/rule.utils.ts:347-355 | the path found below an input is returned from the `forEach` callback, not from `iterate`, so `iterate` returns a path only for a node that is already visited, which the root never is; `findCycles` never reports a cycle and the "Illegal cycle found" error (lines 324-331) cannot be thrown | the rule R with input A, A with input B, B with input A | return the path from `iterate`, as the comment on line 336 ("Returns the first cycle found") says, so the validation throws the cycle error | not executed | RuleGraph.CycleAcceptedAsWritten | RuleGraph.FindCyclesIntended |
