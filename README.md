# ERPAPI RDF store, mini SPARQL engine and text formats in Dafny

This project models the core of ERPAPI, a small PHP RDF triple store. The core has four parts:

- **RDF terms and statements.** The term family is a resource, a blank node or a literal (`Nodes`, `Resources`, `BlankNodes`, `LiteralNodes`). `Statements` holds the statement constructor's role checks and `equals`. `Check` holds the kind predicates, and `Utils` splits a URI into namespace and name.
- **The store.** The `Store.Model` class holds the ordered statement list, the prefix map, the base namespace and the blank-node counter, and updates them in place. Its operations are the namespace operations, `add`/`remove` (which flatten decorated resources recursively), `edit`, the wildcard `search`, `contains` and the node factories. The cycle-guarded builder that turns statements into a forest of resources (`searchResources`, `statementListToResourceList`) is in `ResourceLists`. The argument-free specification of the store is in `StoreSpec`.
- **The SPARQL engine.** It supports SELECT queries over basic graph patterns, sections 10.1 and 5.1 of the W3C *SPARQL Query Language for RDF* (2008).
  - `SparqlQueries.SparqlQuery` is the query object that the parser fills.
  - `SparqlParsers` is the regex and token parser.
  - `SparqlPatterns` builds the pattern tree with its cycle cut and memoisation.
  - `SparqlTables` models the result table as PHP arrays: keys survive `unset`, and `[]` appends after the highest key.
  - `SparqlEvaluation` is the nested-loop join, the projection and the formatting, written as functions.
  - `SparqlEngines.SparqlEngine` is the engine object. It rewrites its fields in place and is proved against those functions.
- **Line-oriented text formats.**
  - `NTriples` is the N-Triples subset (section 3 of the W3C *RDF Test Cases*).
  - `Turtle` is the `@prefix` lines plus simple triples of the Turtle Team Submission.
  - `Json` is the RDF/JSON subject → predicate → object-record layout.
  - The serializers are classes that append to their `content` field.
  - The parsers are a per-line function plus a loop method over the lines of the text. The loop adds each parsed statement to a `Store.Model`.
  - `PhpStrings` models the `strpos`, `explode` and `substr` behaviour they rely on. `LineReader` models how `fgets` splits a text into lines.

PHP `null` is an `Option`, a thrown exception is the `Err` case of a `Result`, and PHP's ordered arrays are sequences of key/value entries (`OrderedMaps`).

Some code the core calls is not among its files. These gaps are filled by the following assumptions.

- **Check predicates.** `util/Check.php` defines only `isSubject`, `isPredicate`, `isObject`, `isStatement` and the two `isValid*` stubs. `Check` gives the other predicates the callers use these definitions:
  - `isUri`: `http://`, then text, then `#` or `/`, then one or more alphanumerics.
  - `isNamespace`: `http://`, then text, then `#` or `/` at the end.
  - `isPrefix` and `isName`: one or more alphanumerics.
  - `isPrefixAndName`: both, joined by `:`.
  
  These definitions meet the accept/reject examples of `tests/util/CheckTest.php`. The callers also use five type tests that `util/Check.php` does not define. They are read as PHP's own type tests:
  - `isResource`: an instance of `Resource`, blank nodes included (`Check.IsResource`).
  - `isBlankNode`: an instance of `BlankNode` (`Check.IsBlankNode`).
  - `isLiteralNode`: an instance of `LiteralNode` (`Check.IsLiteralNode`).
  - `isArray`: `is_array`. It is therefore always true on the result of `explode`. In `parsers/NTripleParser.php:138-144` this means a literal without `^^` gets the datatype `substr(null, 1, -1)`, the empty string, and a literal without `@` gets a null language (`NTriples.ParseLiteral`). The other callers pass arrays, which Dafny's types already guarantee.
  - `isString`: `is_string`. It is called only on the file-name arguments of the file I/O, which is not modelled.
- **Literal language.** `model/LiteralNode.php` has no language field, yet the parsers, the serializers and `tests/model/LiteralNodeTest.php` pass and read one. The model adds an optional language, and literal equality ignores it as `LiteralNode::equals` does. The PHP constructor takes only `$literal` and `$datatype`, so the language the parsers pass as a third argument is the model's addition too.
- **Literal accessors.** The serializers call `hasLanguage()`, `getLanguage()` and `hasDatatype()` (`serializers/NTripleSerializer.php:113-117`, `serializers/TurtleSerializer.php:132-136`, `serializers/JsonSerializer.php:143-147`), and `model/LiteralNode.php` defines none of them. `getLanguage()` returns the stored language (`LiteralNodes.GetLanguage`). `hasLanguage()` and `hasDatatype()` hold when the value is set and is not the empty string (`LiteralNodes.HasLanguage`, `LiteralNodes.HasDatatype`). This reading decides when `@lang`, `^^<datatype>`, `"lang"` and `"datatype"` are written, and every serializer round trip rests on it. `serializers/RDFXMLSerializer.php:223` tests the language with `!empty()`, which would also reject `"0"`; that serializer is not modelled.
- **Blank nodes.** A blank node is id-only, with uri = name = id, as `tests/model/BlankNodeTest.php` expects. Routing a bare id through the `Resource` constructor would reject it.
- **Constants.** The duplicate policy is a parameter (`double`), true by default. The blank-node id prefix `BNODE` is `"bNode"`.
- **Namespace and name.** `tests/util/UtilsTest.php:26` expects `getName("test") == "test"`, but the code throws on a non-URI. The model follows the code.
- **Decorated resources.** A resource with properties is a finite tree, separate from the term value (`Resources.Term`). The last write to a predicate wins. So `searchResources` can find a subject and still return no resource for it: when a subject was fetched as another subject's property value and a later statement about that other subject overwrote that property, the subject is dropped from the roots and is nested nowhere (`ResourceListExamples.OverwrittenSubjectLost`).

## Model

| member | source | states |
|---|---|---|
| Nodes.BaseEqualsIsIdentity | model/Node.php:37-47 | base `equals` holds exactly when the other value is this very term; it is reflexive, false on `null` and false across classes |
| BlankNodes.NewBlankNode | model/BlankNode.php:38-43 | a new blank node is a blank node without properties |
| BlankNodes.IdNameUri | model/BlankNode.php:38-52 | `getId`, `getName` and `getUri` of a blank node all give the id it was built with, and the node passes `isBlankNode` |
| BlankNodes.EqualById | model/Resource.php:207-217 | two blank nodes are equal exactly when their ids are equal |
| Utils.NamespaceEnd | util/Utils.php:60-76 | the namespace end is within the URI, right after a separator (`#`, `:` or `/`) when it is positive, with no separator after it |
| Utils.GetNamespaceEnd | util/Utils.php:60-76 | the backward scan fails on a non-URI and otherwise returns the namespace end |
| Utils.GetName | util/Utils.php:45-51 | succeeds exactly on URIs; the name is a separator-free suffix of the URI |
| Utils.GetNamespace | util/Utils.php:28-36 | succeeds exactly on URIs; the namespace is a prefix of the URI |
| Utils.SplitUri | util/Utils.php:28-51 | every URI splits into a valid namespace and a valid name that concatenate back to the URI |
| Utils.JoinUri | util/Utils.php:28-51 | a namespace followed by a name is a URI, and splitting it gives both parts back |
| Utils.UtilsExamples | tests/util/UtilsTest.php:22-48 | the test examples: name "test", the namespace and its end for `NS + "test"`; a bare "test" is rejected, as the code throws on it |
| Check.IsUriIffPattern | tests/util/CheckTest.php:130-138 | `isUri`, computed through the alphanumeric tail of the string, holds exactly when the string matches `^http://.+[#/][A-Za-z0-9]+$` |
| Check.IsPrefixAndNameIffPattern | tests/util/CheckTest.php:161-169 | `isPrefixAndName`, computed through the alphanumeric tail, holds exactly when the string is a name, a ':' and a name |
| Check.RolesByKind | util/Check.php:27-68 | a subject is any resource or blank node; a predicate is exactly a non-blank resource with no properties; an object is any term; every predicate is also a subject and an object |
| Check.BlankNodeRoles | util/Check.php:41-54 | a blank node, with or without properties, is a subject and an object but never a predicate |
| Check.NonTermsRejected | util/Check.php:27-82 | strings, statements and `null` pass none of the term checks; `isStatement` holds exactly for statements |
| Check.ValidStubs | util/Check.php:90-114 | `isValidURI` and `isValidPrefix` accept exactly the strings |
| Check.CheckExamples | tests/util/CheckTest.php:130-179 | the accept and reject examples of the tests for `isUri`, `isNamespace`, `isName`, `isPrefix` and `isPrefixAndName` hold |
| LiteralNodes.NewLiteralNode | model/LiteralNode.php:30-33 | the constructor always gives a literal node |
| LiteralNodes.Construction | model/LiteralNode.php:30-51 | the datatype defaults to "string" and the language to `null`; the getters give back the constructor's arguments |
| LiteralNodes.EqualsIff | model/LiteralNode.php:59-73 | a literal equals a value exactly when that value is a literal with the same literal text and the same datatype under `==`, where a null datatype equals "" and nothing else; a literal equals itself |
| LiteralNodes.NullDatatypeIsEmpty | model/LiteralNode.php:68 | a literal with a null datatype equals the same literal with the datatype "", both ways round, and differs from it under any other datatype |
| LiteralNodes.LanguageIgnored | model/LiteralNode.php:68 | two literals that differ only in their language are equal |
| Statements.NewStatement | model/Statement.php:51-67 | the constructor succeeds exactly when subject, predicate and object pass their checks; otherwise it fails with the first failing role's error; a built statement keeps the three nodes and has a non-literal subject and a resource predicate |
| Statements.NodeEqualsIff | model/Resource.php:207-217 | two terms are equal exactly when both are resources or blank nodes with the same URI, or both are literals with the same literal and the same datatype, a null datatype counting as "" |
| Statements.NodeEqualsEquivalence | model/Resource.php:207-217 | term equality is reflexive, symmetric and transitive |
| Statements.EqualsIff | model/Statement.php:102-110 | two statements are equal exactly when their parts are pairwise equal; statement equality is reflexive and symmetric |
| Statements.EqualsTransitive | model/Statement.php:102-110 | statement equality is transitive |
| Statements.NotAStatement | model/Statement.php:104-105 | a value that is not a statement is never equal to one |
| Statements.DifferentObjects | tests/model/StatementTest.php:36-43 | two statements differing only in their literal objects are not equal |
| Statements.ConstructionKeepsSubject | model/Statement.php:62-65 | building a statement from a subject, a predicate and an object that pass their checks succeeds and stores the subject's node as given |
| Statements.NewStatementOfTerms | model/Statement.php:51-67 | a non-literal subject, a plain resource predicate and any object build the statement of exactly those nodes |
| Resources.NewResource | model/Resource.php:54-68 | the constructor succeeds exactly for a URI, or for a namespace with a valid name; the result is a property-less resource whose URI is the URI given or namespace + name, and whose name is the name given or the URI's name |
| Resources.ConstructorErrors | model/Resource.php:56-62 | a value that is neither a URI nor a namespace fails with `API_ERROR_URI`; a namespace without a valid name fails with `API_ERROR_NAME` |
| Resources.NamespaceAndUriForms | model/Resource.php:54-68 | a resource built from a namespace and a name equals the one built from their concatenation, and its name and namespace are the parts it was built from |
| Resources.GetNamespace | model/Resource.php:167-169 | succeeds exactly when the URI is a URI; the namespace of a resource followed by its name is its URI |
| Resources.AddProperty | model/Resource.php:80-91 | succeeds exactly for a valid predicate and object, failing with the predicate error first and the object error second; the resource's node is unchanged |
| Resources.HasProperty | model/Resource.php:100-106 | fails on an invalid predicate; otherwise true exactly when the predicate's URI is a key of the property map |
| Resources.GetProperty | model/Resource.php:125-134 | fails on an invalid predicate; otherwise `null` exactly when the predicate's URI is not a key |
| Resources.RemoveProperty | model/Resource.php:143-151 | fails on an invalid predicate; otherwise returns true and keeps the resource's node |
| Resources.RemoveAllProperties | model/Resource.php:188-190 | the node stays and the resource has no properties left |
| Resources.AddThenGet | model/Resource.php:80-134 | after `addProperty(p, o)`, `hasProperty(p)` is true and `getProperty(p)` is `o`; every other predicate keeps its object; property keys stay distinct |
| Resources.GetAbsent | model/Resource.php:130-131 | an absent predicate gives `null` |
| Resources.RemoveOnlyThatKey | model/Resource.php:143-151 | `removeProperty(p)` returns true, after it `hasProperty(p)` is false, and every other predicate keeps its object |
| Resources.EqualsIsUriEquality | model/Resource.php:207-217 | a resource equals a value exactly when that value is a resource or blank node with the same URI |
| OrderedMaps.Lookup | model/Resource.php:105 | a key is found exactly when it is one of the map's keys, and what is found is the value of an entry under that key |
| OrderedMaps.Put | model/Resource.php:88 | assigning an existing key keeps the key order; assigning a new key appends it at the end |
| OrderedMaps.Unset | model/Resource.php:148 | after `unset` the key is gone, no key or entry is new, and the map is no longer |
| OrderedMaps.LookupPut | model/Resource.php:88 | after `$m[$k] = $v`, looking up `$k` gives `$v` and every other key keeps its value |
| OrderedMaps.LookupUnset | model/Resource.php:148 | after `unset($m[$k])`, `$k` is unset and every other key keeps its value |
| OrderedMaps.PutKeepsDistinct | model/Resource.php:88 | assignment keeps keys distinct and adds one entry exactly when the key is new |
| OrderedMaps.UnsetKeepsDistinct | model/Resource.php:148 | `unset` keeps keys distinct |
| OrderedMaps.LastWriteWins | model/Resource.php:88 | two writes to the same key leave the map as the last write alone would, at the key's first position |
| OrderedMaps.PutEntries | model/Resource.php:88 | every entry after an assignment is the new entry or an old one |
| OrderedMaps.PutAbsent | model/Resource.php:88 | in a map with distinct keys, assigning a new key appends exactly that entry |
| OrderedMaps.LookupEntry | model/Resource.php:105 | in a map with distinct keys, each entry is what its key looks up |
| Store.NatToString | model/Model.php:811 | the decimal rendering of a counter value is a non-empty string of digits, of two or more digits from 10 on |
| Store.NatToStringInjective | model/Model.php:811 | different counter values render differently |
| Store.MintedIdsDistinct | model/Model.php:810-812 | ids minted at different counter values differ, so `generateUniqueId` never repeats itself |
| Store.FirstIds | model/Model.php:810-812 | the first minted id is "bNode1" and the fourth is "bNode4" |
| Store.PutNamespace | model/Model.php:129-138 | binding a prefix succeeds exactly for a valid prefix and namespace, failing with the prefix error first; afterwards the prefix gives the namespace and every other prefix keeps its binding |
| Store.NamespaceOf | model/Model.php:147-153 | succeeds exactly for a valid prefix; the result is set exactly when the prefix is bound, and it is the bound namespace |
| Store.Model.constructor | model/Model.php:93-95 | a new model is empty and valid: no statements, no namespaces, no base and a zero counter |
| Store.Model.AddNamespace | model/Model.php:129-138 | succeeds exactly for a valid prefix and namespace, with the PHP error order; on success the prefix is (re)bound in place, on failure nothing changes; the statements, the base and the counter never change |
| Store.Model.AddBaseNamespace | model/Model.php:108-120 | the same checks; on success the pair becomes the base namespace and prefix and is registered; on failure the configuration is unchanged |
| Store.Model.GetNamespace | model/Model.php:147-153 | succeeds exactly for a valid prefix; the answer is set exactly when the prefix is bound, and it is the namespace bound to it |
| Store.Model.HasNamespace | model/Model.php:207-213 | succeeds exactly for a valid prefix; true exactly when the prefix is bound |
| Store.Model.RemoveNamespace | model/Model.php:191-198 | succeeds exactly for a valid prefix; the binding is unset, `hasNamespace` is then false and the method returns true; nothing else changes |
| Store.Model.IsEmpty | model/Model.php:779-781 | true exactly when the size is 0 |
| Store.Model.Contains | model/Model.php:790-803 | fails on a non-statement; otherwise true exactly when some stored statement is equal to the argument |
| Store.Model.Search | model/Model.php:461-507 | the result is `search` as specified: null on an empty store, the role errors in order, else the matching statements in store order |
| Store.Model.ScanMatching | model/Model.php:475-506 | the scan returns exactly the stored statements matching every non-empty argument, in store order |
| Store.Model.Add | model/Model.php:226-241 | an empty argument or one that is neither a statement nor a resource fails and changes nothing; a statement is added with the duplicate policy; a resource adds its flattened statements; the result is true exactly when the store grew; the configuration never changes |
| Store.Model.AddStatement | model/Model.php:250-266 | allowing duplicates, or when no equal statement is stored, the statement is appended and true is returned; otherwise nothing changes and false is returned |
| Store.Model.AddResource | model/Model.php:276-307 | the store becomes the old store followed by the adds of the resource's flattened statements (nested property-bearing objects first, then the stripped statement), and true is returned exactly when anything was added |
| Store.Model.Remove | model/Model.php:316-331 | an empty argument or one that is neither a statement nor a resource fails and changes nothing; a statement removes every equal stored statement and returns whether there was one; a resource removes its statements recursively; the result is true exactly when the store shrank |
| Store.Model.RemoveStatement | model/Model.php:340-356 | every stored statement equal to the argument is removed, the others keep their order, and true is returned exactly when one was stored |
| Store.Model.RemoveResource | model/Model.php:365-390 | the store loses, in the order of the walk, the statements from the resource through each property and, for resource objects, recursively theirs; true exactly when the store shrank |
| Store.Model.Edit | model/Model.php:399-450 | succeeds exactly for two non-empty statements or two non-empty resources; the new store is the old one with the old part removed and the new one added with the default duplicate policy; a failure changes nothing |
| Store.Model.GenerateUniqueId | model/Model.php:810-812 | the counter is pre-incremented and the id is "bNode" followed by the new counter value; nothing else changes |
| Store.Model.NewBlankNode | model/Model.php:938-941 | a blank node whose id is freshly minted from the incremented counter |
| Store.Model.NewResource | model/Model.php:906-915 | fails without a base namespace; an empty name mints a blank node; otherwise the resource named in the base namespace, as the `Resource` constructor builds it; the counter moves only for a blank node |
| Store.Model.NewLiteralNode | model/Model.php:925-931 | fails exactly without a base namespace; otherwise the literal with the given text and datatype and no language |
| Store.Model.NewStatement | model/Model.php:951-953 | succeeds exactly when the three roles hold, giving the statement of the three nodes |
| StoreSpec.Matching | model/Model.php:475-506 | the matching statements are exactly the stored statements that match every non-empty argument, and they keep store order |
| StoreSpec.SearchSpec | model/Model.php:461-473 | `null` on an empty store before any argument check; on a non-empty store it succeeds exactly when each argument is empty or has its role |
| StoreSpec.SearchMembers | model/Model.php:477-506 | a successful search returns exactly the stored statements that match |
| StoreSpec.WildcardMatchesAll | model/Model.php:483-499 | a search with three empty arguments matches the whole store, in order |
| StoreSpec.DuplicatePolicy | model/Model.php:255-265 | forbidding duplicates, the statement is appended exactly when no equal one is stored and the store is unchanged otherwise; allowing them, it is always appended |
| StoreSpec.AddAllAppend | model/Model.php:292-304 | adding two lists one after the other is adding their concatenation |
| StoreSpec.AddAllExtends | model/Model.php:292-304 | a run of adds keeps the old store as a prefix, appends some of the new statements in order, and all of them when duplicates are allowed |
| StoreSpec.FlattenDirect | model/Model.php:303 | every property of a resource contributes its own statement, with the stripped subject and object |
| StoreSpec.FlattenEmpty | model/Model.php:284-285 | a resource flattens to no statements exactly when it has no properties |
| StoreSpec.FlattenWellFormed | model/Model.php:292-304 | every flattened statement of a well-formed resource has the roles a statement needs |
| StoreSpec.WithoutSpec | model/Model.php:340-356 | `removeStatement` keeps exactly the statements not equal to its argument, in order, and shrinks the list exactly when an equal one was stored |
| StoreSpec.FlattenInRemoval | model/Model.php:276-390 | every statement `addResource` adds is one that `removeResource` removes |
| StoreSpec.WithoutAppend | model/Model.php:347-353 | removing a statement from a concatenation removes it from each part |
| StoreSpec.RemoveAllAppend | model/Model.php:378-387 | a run of removals distributes over concatenation |
| StoreSpec.RemoveAllMembers | model/Model.php:378-387 | removing a list of statements leaves nothing of a list whose every element occurs in it |
| StoreSpec.AddThenRemove | model/Model.php:276-390 | `removeResource` undoes `addResource`: the old statements are filtered as if the add had not happened |
| StoreSpec.AddThenRemoveEmpty | model/Model.php:276-390 | adding a resource to an empty store and removing it again leaves the store empty |
| StoreExamples.Fixture | tests/model/ModelTest.php:22-27 | the test fixture, a fresh model with base prefix "ex" for the example namespace, is empty and has exactly that one namespace |
| StoreExamples.NamespaceExample | tests/model/ModelTest.php:29-54 | after adding "ns" there are two namespaces; "ns" gives the example namespace and "ns1" is not bound |
| StoreExamples.RemoveNamespaceExample | tests/model/ModelTest.php:35-43 | removing "ns" returns true and leaves it unbound |
| StoreExamples.TwoNamespaces | tests/model/ModelTest.php:29-33 | after adding "ns" the prefix map is "ex" then "ns" |
| StoreExamples.DuplicateExample | tests/model/ModelTest.php:78-94 | a stored statement is found; adding it again with duplicates forbidden gives false and one copy, with duplicates allowed true and two copies |
| StoreExamples.AddErrorsExample | tests/model/ModelTest.php:59-76 | adding a string or a literal fails; adding a resource or a blank node without properties gives false and the store stays empty |
| StoreExamples.TwoLevelShape | tests/model/ModelTest.php:394-403 | the two-level resource of the removal test is well formed and flattens to five statements |
| StoreExamples.AddTwoLevel | tests/model/ModelTest.php:394-405 | adding the two-level resource returns true and stores its five flattened statements |
| StoreExamples.AddRemoveExample | tests/model/ModelTest.php:394-412 | adding the two-level resource gives size 5; removing it returns true and gives size 0 |
| StoreExamples.FirstMintedExample | tests/model/BlankNodeTest.php:35-44 | the blank node with id BNODE + "1" equals the first blank node a fresh model mints |
| StoreExamples.ThreeResources | tests/model/ModelTest.php:299-303 | `newResource("test")` mints no id and each `newResource()` mints one |
| StoreExamples.FourthMintedExample | tests/model/ModelTest.php:299-309 | the blank node minted after those calls and one more `newBlankNode()` has id BNODE + "4" |
| ResourceLists.WithSubject | model/Model.php:636-643 | the statements kept for a subject URI are exactly those whose subject has that URI |
| ResourceLists.IndexOfSpec | model/Model.php:635-643 | the index lists each subject URI once, in first-seen order, and holds for each exactly the statements about it, in their original order |
| ResourceLists.IndexOfValid | model/Model.php:635-643 | every indexed URI has a non-empty list of well-formed statements about it |
| ResourceLists.LastObjectIn | model/Model.php:707-724 | the object a predicate keeps is the object of some statement about it through that predicate |
| ResourceLists.ShapeStep | model/Model.php:723 | `addProperty` of the next statement keeps property keys distinct and extends the built shape by that statement |
| ResourceLists.Build | model/Model.php:672-734 | a finished key is returned again and dropped from the roots; a key still in progress (a cycle) gives null; any other key is built from its statements and recorded as finished; finished resources are never rebuilt and the set of keys left to visit never grows |
| ResourceLists.BuildProps | model/Model.php:707-724 | the property loop keeps the subject and produces a resource with distinct keys whose properties are exactly the predicates of the statements, each with the last one's object, nested as `Nested` says |
| ResourceLists.Child | model/Model.php:712-720 | the property value is a term equal to the statement's object: for an indexed subject already finished, the cached resource; for an indexed subject not in progress, the resource built for its key, recorded as finished; for a literal, a node that is no indexed subject or a key still in progress (a cycle), the plain object |
| ResourceLists.AddChild | model/Model.php:723 | adding the next property value keeps the keys distinct, extends the shape by that statement and keeps every value nested |
| ResourceLists.NestedStep | model/Model.php:712-723 | after `addProperty` with a value `Child` allows, every property value is still the plain object or the resource built for the object's key |
| ResourceLists.BuildRoots | model/Model.php:645-650 | after the loop over the index keys every key is finished, and there is a root when any key was unfinished |
| ResourceLists.ResourceList | model/Model.php:624-663 | the roots have distinct URI keys; each is built from the statements about its URI and is a resource with properties; each property value is the plain object, or, for an object that is itself a subject, possibly the resource built from that subject's statements, nested the same way down the tree (`Shaped`); there are no roots exactly when there are no statements |
| ResourceLists.StatementListToResourceList | model/Model.php:624-663 | succeeds exactly when every element is a statement, failing with `API_ERROR` otherwise; on success the roots are as `ResourceList` describes, with nested children built from the subjects' own statements |
| ResourceLists.BuiltFromFacts | model/Model.php:700-727 | a built resource is a resource or blank node with at least one property |
| ResourceLists.PropertiesFromStatements | model/Model.php:700-727 | every property of a root comes from a statement about the root's URI, with the same predicate and an equal object |
| ResourceLists.Direct | model/Model.php:758-759 | one statement per property: the resource, the property's predicate and its object |
| ResourceLists.ResourceListToStatementList | model/Model.php:743-763 | succeeds exactly when every element is a resource with properties; the statements are exactly the direct statements of the resources |
| ResourceLists.RootValues | model/Model.php:743-763 | the roots, as values, are accepted by `resourceListToStatementList` |
| ResourceLists.RoundTripSound | model/Model.php:624-763 | converting the roots back to statements gives only statements equal to ones in the original list |
| ResourceLists.RootStatement | model/Model.php:743-763 | each statement given back is the direct statement of one property of one root |
| ResourceLists.FoundIsAbout | model/Model.php:582 | a statement found by searching for a subject is a stored statement about that subject's URI |
| ResourceLists.MatchingAbout | model/Model.php:582 | searching for a subject finds every stored statement about its URI |
| ResourceLists.CoveredGrows | model/Model.php:542 | a URI whose statements are all in a list keeps them all in any list holding that one |
| ResourceLists.ClosedWiden | model/Model.php:575-580 | closure of a statement list survives a larger skip set and a larger container |
| ResourceLists.ClosedShrink | model/Model.php:606-609 | URIs whose statements are all in the container can leave the skip set |
| ResourceLists.ClosedConcat | model/Model.php:603 | two closed lists concatenated are closed |
| ResourceLists.ClosedStep | model/Model.php:590-604 | a found statement whose object is skipped or covered extends the closed tail of the loop by one |
| ResourceLists.SearchFrom | model/Model.php:567-614 | null exactly when the URI is already processed or in progress, changing nothing then; otherwise stored statements only, starting with every statement about the URI, with the URI processed afterwards; every URI it newly marks processed has all its statements in the result; every resource or blank-node object in the result is already processed or in progress at entry, or has all its statements in the result; the processed set only grows |
| ResourceLists.SearchFromAll | model/Model.php:590-604 | the loop keeps what it was given as a prefix, appends only stored statements and only grows the processed set; every URI it newly marks processed has all its statements in the result; every resource or blank-node object among the remaining found statements and the appended ones is processed or in progress at entry, or has all its statements in the result |
| ResourceLists.SearchFromClosed | model/Model.php:585-613 | the loop's guarantees give those of `searchResourcesRecursive`: the result starts with the statements about the URI, covers the URI and every URI newly processed, and is closed with respect to what was processed or in progress at entry |
| ResourceLists.SearchFromAllStep | model/Model.php:599-603 | one turn of the recursive loop keeps the prefix, the coverage of newly processed URIs and the closure of the tail |
| ResourceLists.Collect | model/Model.php:529-543 | the outer loop keeps what it was given as a prefix and appends only stored statements; every resource or blank-node object among the remaining found statements and the appended ones is processed at entry, a subject of a found statement, or has all its statements in the result |
| ResourceLists.CollectStep | model/Model.php:529-542 | one turn of the outer loop keeps the closure of the tail, with the found subjects skipped |
| ResourceLists.Collected | model/Model.php:521-543 | the list handed to `statementListToResourceList` starts with the found statements, holds only stored statements, and each of its resource or blank-node objects is a subject of a found statement or has all its statements in it |
| ResourceLists.SearchResources | model/Model.php:518-559 | fails on an empty store; otherwise succeeds exactly when `search` does; null exactly when nothing matched; on success the result is read off the roots `statementListToResourceList` builds from the collected list (`Collected`): null exactly when there are no roots, the single root when there is one, all the roots otherwise; a single result is a resource from the store; several results are at least two resources with distinct URI keys, each built from statements of the store |
| ResourceLists.RootFromStore | model/Model.php:550 | a root built from statements of the store has its properties from store statements about its URI |
| ResourceListExamples.IndexOfSnoc | model/Model.php:636-643 | indexing one more statement appends it to its subject's list, adding the subject's URI as a new key when it was not indexed yet |
| ResourceListExamples.IndexOfTwo | model/Model.php:636-643 | two statements about different subjects give two keys, in order, each with its one statement |
| ResourceListExamples.CycleInner | model/Model.php:672-734 | with the outer subject in progress, the inner subject of a two-statement cycle is built holding the plain outer subject and is recorded as finished |
| ResourceListExamples.CycleInnerProps | model/Model.php:712-720 | the inner resource's one property is the plain outer subject, whose key is in progress |
| ResourceListExamples.CycleOuterChild | model/Model.php:717-718 | the outer subject's property value is the inner resource, built recursively |
| ResourceListExamples.CycleOuterProps | model/Model.php:707-724 | the outer subject's property loop yields the cycle tree and records the inner resource as finished |
| ResourceListExamples.OneProperty | model/Model.php:707-724 | the loop over a key with one statement adds exactly that statement's property |
| ResourceListExamples.CycleOuterBuild | model/Model.php:672-734 | building the outer subject from a fresh context gives the cycle tree and records both subjects as finished |
| ResourceListExamples.CycleValid | model/Model.php:635-643 | the index of the two-statement cycle is valid |
| ResourceListExamples.CycleRoots | tests/model/ModelTest.php:158-182 | a two-statement cycle gives a single root, the first subject, holding the second, which holds the plain first subject: the cycle is cut where it closes |
| ResourceListExamples.CycleSearch | model/Model.php:518-543 | on the cycle store, searching for the first subject finds its statement, and the collecting loop gathers both statements |
| ResourceListExamples.CycleExample | tests/model/ModelTest.php:158-182 | `searchResources(test1)` on the store test1 -pred-> test2 -pred-> test1 returns the single resource test1, whose property leads to test2 and back to test1 |
| ResourceListExamples.OverwriteIndexOf | model/Model.php:636-643 | the store f -p-> literal, x -p-> f, x -p-> g is indexed under the keys f, x with their statements in order |
| ResourceListExamples.OverwriteFirst | model/Model.php:672-734 | f, the first key, is built on its own with its one literal property and becomes a root |
| ResourceListExamples.OverwriteChildF | model/Model.php:679-686 | the first statement about x fetches the finished f and removes it from the roots |
| ResourceListExamples.OverwriteChildG | model/Model.php:712-720 | the second statement about x gives the plain g, which is no indexed subject |
| ResourceListExamples.PropertyTurn | model/Model.php:707-724 | a turn of the property loop adds the statement's child value and goes on from the context the child left |
| ResourceListExamples.LastProperty | model/Model.php:707-724 | the last turn of the property loop adds the last statement's child value and ends |
| ResourceListExamples.TwoProperties | model/Model.php:707-724 | the loop over two statements adds the first property and then the second, by `addProperty` |
| ResourceListExamples.OverwriteProps | model/Model.php:707-724 | x's property loop yields x whose one property is the plain g: the second statement overwrote the child f |
| ResourceListExamples.OverwriteSecond | model/Model.php:672-734 | building x after f gives that resource and leaves no roots but x's |
| ResourceListExamples.OverwriteBuildRoots | model/Model.php:645-650 | the loop over the keys ends with x as the only root |
| ResourceListExamples.OverwriteRoots | model/Model.php:624-663 | `statementListToResourceList` of the store is the single root x |
| ResourceListExamples.OverwriteCollectTail | model/Model.php:529-543 | the last outer turn adds nothing: g is the subject of no statement |
| ResourceListExamples.OverwriteCollect | model/Model.php:521-543 | the wildcard search finds the whole store and the collecting loop adds nothing to it |
| ResourceListExamples.NoMatchG | model/Model.php:582 | searching for g finds nothing |
| ResourceListExamples.OverwrittenSubjectLost | model/Model.php:518-559 | `searchResources()` with three wildcards finds f's statement, yet returns the single resource x holding the plain g: f is neither a root nor nested in one |
| PhpStrings.StrPos | parsers/NTripleParser.php:105 | `strpos` gives the first index at which the delimiter occurs, or false exactly when it occurs nowhere |
| PhpStrings.Explode | parsers/NTripleParser.php:94 | `explode` always gives at least one piece |
| PhpStrings.ExplodeTwo | parsers/TurtleParser.php:127 | `explode` with a limit of 2 gives two pieces exactly when the delimiter occurs, else one |
| PhpStrings.Inner | parsers/NTripleParser.php:109 | `substr($s, 1, -1)` drops exactly the first and the last character of a string of two or more |
| PhpStrings.ExplodeAbsent | parsers/NTripleParser.php:94 | a string without the delimiter is one piece |
| PhpStrings.FirstAfter | parsers/NTripleParser.php:94 | when the part before the delimiter lacks its first character, the first occurrence is right after that part |
| PhpStrings.ExplodeCons | parsers/NTripleParser.php:94 | splitting `a + d + b`, with `a` free of the delimiter's first character, gives `a` and then the pieces of `b` |
| PhpStrings.ExplodeTwoCons | parsers/TurtleParser.php:127 | the same for `explode` with a limit of 2: exactly `a` and `b` |
| PhpStrings.NoneAcross | parsers/NTripleParser.php:105 | a concatenation of two delimiter-free strings is delimiter-free when the join cannot hold the delimiter |
| PhpStrings.InnerOfWrapped | parsers/NTripleParser.php:109 | `substr` of a bracketed string gives back what was inside the brackets |
| PhpStrings.ExplodeSpaced | parsers/NTripleParser.php:94-101 | four space-free pieces joined by single spaces split back into exactly those four pieces |
| LineReader.Lines | parsers/NTripleParser.php:69 | every line `fgets` hands out is non-empty |
| LineReader.LinesCons | parsers/NTripleParser.php:69 | a newline-free part followed by "\n" is the first line, and the rest of the text gives the other lines |
| LineReader.SkippedLines | parsers/NTripleParser.php:71 | as written, a line is skipped exactly when it holds a '#' anywhere; every comment line is among them |
| NTriples.DocumentSnoc | serializers/NTripleSerializer.php:92-122 | the text of one more statement is the earlier text followed by that statement's line |
| NTriples.StatementLine | serializers/NTripleSerializer.php:94-121 | the loop body writes the subject as `_:id` or `<uri>`, the predicate as `<uri>` and the object by its kind, joined by spaces and closed by " .\n"; this is `Line` |
| NTriples.WriteLiteral | serializers/NTripleSerializer.php:110-117 | a literal is its quoted text, then `@lang` only when it has a language, then `^^<datatype>` only when it has a datatype |
| NTriples.NTripleSerializer.constructor | serializers/NTripleSerializer.php:31-33 | a new serializer holds no content |
| NTriples.NTripleSerializer.Transform | serializers/NTripleSerializer.php:84-125 | an empty model throws and leaves the content as it was; otherwise the content grows by exactly one line per statement, in store order, and is returned |
| NTriples.NTripleSerializer.SerializeToString | serializers/NTripleSerializer.php:68-75 | gives the text of `transform` and clears the content afterwards; an empty model throws |
| NTriples.ParseLiteral | parsers/NTripleParser.php:133-148 | an object piece holding '"' always becomes a literal |
| NTriples.ParseStatement | parsers/NTripleParser.php:92-157 | a line not made of exactly four space-separated pieces throws; a line that parses gives a statement with a non-literal subject and a resource predicate |
| NTriples.Transform | parsers/NTripleParser.php:60-83 | the model ends as the load of the lines leaves it: skipped lines passed over, others parsed and added with duplicates allowed, the first line that fails ends the load with its error and what was added so far |
| NTriples.TransformLine | parsers/NTripleParser.php:69-72 | one turn of the loop: a skipped line changes nothing, a failing line throws with the model unchanged, a parsed line is added |
| NTriples.ReadBackAll | parsers/NTripleParser.php:60-83 | reading back keeps the number of statements |
| NTriples.ReadBackEquals | model/Statement.php:102-110 | every well-formed statement read back equals the one written, by statement equality; a literal written without datatype comes back with "", which `==` takes for null |
| NTriples.ReadBackFound | model/Model.php:495-496 | a literal without datatype reads back with the datatype "", and the statement read back is found by a search for the original object |
| NTriples.UntypedLiteralFound | model/Model.php:495-496 | the literal "v" stored with the datatype "" (as `<http://a/s> <http://a/p> "v" .` loads) is found by a search for "v" with a null datatype (as a SPARQL query literal carries) |
| NTriples.ResourceRoundTrip | parsers/NTripleParser.php:107-111 | `<uri>` of a valid URI is rebuilt as that resource |
| NTriples.BlankRoundTrip | parsers/NTripleParser.php:105-107 | `_:id` is recognised as a blank node and gives back `id` |
| NTriples.SubjectRoundTrip | parsers/NTripleParser.php:105-115 | the subject text of a printable resource or blank node parses back as that node |
| NTriples.LiteralRoundTrip | parsers/NTripleParser.php:124-148 | a printable literal's text is taken for a literal and parses back as the literal, with a missing datatype read as "" and a missing language as null |
| NTriples.ObjectRoundTrip | parsers/NTripleParser.php:124-154 | the object text of every printable node parses back as that node, read back |
| NTriples.TextChars | serializers/NTripleSerializer.php:94-117 | no part of a printable statement's line holds a space or a newline |
| NTriples.ParseLine | parsers/NTripleParser.php:92-157 | `saveAsStatements` reads the serializer's line of a printable statement back as that statement, read back |
| NTriples.ParseOfPieces | parsers/NTripleParser.php:94-156 | a line of four pieces whose subject, predicate and object parse gives the statement of those three nodes |
| NTriples.LineEnds | serializers/NTripleSerializer.php:120-121 | a line is a newline-free body followed by one "\n" |
| NTriples.DocumentLines | serializers/NTripleSerializer.php:92-122 | the text of a store splits into exactly one line per statement, each the serializer's line of that statement, in store order |
| NTriples.DocumentCons | serializers/NTripleSerializer.php:92-122 | the first line of a text is that of the first statement |
| NTriples.LoadStep | parsers/NTripleParser.php:69-72 | a line that is not skipped and parses adds its statement, and the load goes on with the rest |
| NTriples.LineNotComment | serializers/NTripleSerializer.php:98-102 | a written line starts with '<' or "_:", so it is never a comment line |
| NTriples.LoadRoundTrip | parsers/NTripleParser.php:60-83 | loading a written text adds back every statement, read back, in order, when none of its lines is skipped |
| NTriples.CommentsOnlyRoundTrip | parsers/NTripleParser.php:60-83 | when only comment lines are skipped, every printable store survives writing and reading back whole |
| NTriples.HashLineDropped | parsers/NTripleParser.php:71 | as written, the line of a statement holding a '#' is skipped, so its one-statement text loads back as nothing |
| NTriples.HashStatementExample | parsers/NTripleParser.php:71 | `<http://example.org/ns#me> <http://example.org/ns#knows> <http://example.org/ns#you>` is printable and its line holds a '#' |
| Turtle.LastWith | serializers/TurtleSerializer.php:153-154 | finds the last entry of the prefix map bound to a namespace, or reports that there is none |
| Turtle.PrefixOf | serializers/TurtleSerializer.php:152-155 | `getPrefix` gives null exactly when no prefix is bound to the namespace, and otherwise a prefix bound to it (the last one, as `array_flip` keeps) |
| Turtle.StatementLines | serializers/TurtleSerializer.php:106-141 | there is one line outcome per statement, in store order, each the line of that statement |
| Turtle.HeaderSnoc | serializers/TurtleSerializer.php:102-104 | the declarations of one more prefix are the earlier ones followed by its `@prefix` line |
| Turtle.WrittenSnoc | serializers/TurtleSerializer.php:106-141 | after lines that all succeeded, one more line either appends its text or ends the writing with its error |
| Turtle.WrittenStops | serializers/TurtleSerializer.php:106-141 | once a line throws, nothing after it is written |
| Turtle.StatementLine | serializers/TurtleSerializer.php:108-140 | the loop body writes a blank node as `_:id`, a resource as `prefix:name` when its namespace has a truthy prefix and as `<uri>` otherwise, a literal as in N-Triples; this is `Line` |
| Turtle.TurtleSerializer.constructor | serializers/TurtleSerializer.php:39-41 | a new serializer holds no content |
| Turtle.TurtleSerializer.Transform | serializers/TurtleSerializer.php:92-144 | an empty model throws and leaves the content as it was; otherwise the content grows by the prefix declarations, then by the statement lines up to the first that throws |
| Turtle.TurtleSerializer.WritePrefixes | serializers/TurtleSerializer.php:102-104 | the content grows by one `@prefix p:<ns> .` line per binding, in insertion order |
| Turtle.TurtleSerializer.WriteStatements | serializers/TurtleSerializer.php:106-143 | the content grows by the statement lines up to the first that throws, and the content is returned when none does |
| Turtle.TurtleSerializer.SerializeToString | serializers/TurtleSerializer.php:76-83 | gives the text of `transform` and clears the content afterwards; an empty model or a line that throws gives the error |
| Turtle.NamespaceLine | parsers/TurtleParser.php:120-136 | a line not made of three space-separated pieces throws |
| Turtle.ParseResource | parsers/TurtleParser.php:173-175 | a resource token that parses gives a resource with no properties |
| Turtle.ParseSubject | parsers/TurtleParser.php:158-169 | a subject token that parses gives a resource or a blank node |
| Turtle.ParseLiteral | parsers/TurtleParser.php:191-203 | a literal token always gives a literal whose datatype and language are set, "" when missing |
| Turtle.ParseLanguage | parsers/TurtleParser.php:196-203 | the language part keeps the datatype found before it |
| Turtle.ParseObject | parsers/TurtleParser.php:179-209 | an object token that parses gives a node with no properties |
| Turtle.ParseStatement | parsers/TurtleParser.php:144-211 | a line not made of exactly four pieces throws; a line that parses gives a statement with a non-literal subject and a resource predicate |
| Turtle.LineEffect | parsers/TurtleParser.php:99-112 | fewer than three pieces throw; a declaration leaves the statements alone; a statement line leaves the prefix map alone and adds exactly one statement |
| Turtle.SaveAsNamespace | parsers/TurtleParser.php:120-136 | on the model: binds the prefix the line declares, or throws with the model unchanged; the statements and the base namespace stay as they are |
| Turtle.SaveAsStatements | parsers/TurtleParser.php:144-211 | on the model: adds the statement the line gives, with duplicates allowed, or throws with the statements unchanged |
| Turtle.HandleLine | parsers/TurtleParser.php:99-112 | on the model: the line's effect on the prefix map and the statements, or its error with both unchanged |
| Turtle.Transform | parsers/TurtleParser.php:68-92 | the model ends as the load of the lines leaves it: skipped lines passed over, others handled, the first that throws ends the load with its error and what was done so far |
| Turtle.TransformLine | parsers/TurtleParser.php:79-81 | one turn of the loop: a skipped line changes nothing, a failing line throws with the model unchanged, any other line has its effect |
| Turtle.LoadTail | parsers/TurtleParser.php:79-81 | a skipped line is passed over, a failing line ends the load, a handled line's effect is carried into the rest of the load |
| Turtle.ReadBackAll | parsers/TurtleParser.php:68-92 | reading back keeps the number of statements |
| Turtle.PrefixedToken | serializers/TurtleSerializer.php:116-118 | a resource written with its prefix gives `prefix:name`, which resolves through the prefix map back to its URI |
| Turtle.PrefixedResolve | parsers/TurtleParser.php:162-163 | `prefix:name` with a bound prefix resolves to the namespace followed by the name |
| Turtle.BracketedToken | parsers/TurtleParser.php:162-163 | as written, a `<uri>` token throws, since the piece before the URI's first ':' is "<http", no valid prefix; fixed, it gives the URI back |
| Turtle.ResourceToken | serializers/TurtleSerializer.php:116-128 | the token of every printable resource resolves back to its URI |
| Turtle.BracketedResourceToken | serializers/TurtleSerializer.php:118 | a resource whose namespace has no truthy prefix is written `<uri>`, and only the fixed parser reads it back |
| Turtle.BracketedParse | parsers/TurtleParser.php:173-175 | fixed, a `<uri>` token parses as that resource |
| Turtle.BlankToken | parsers/TurtleParser.php:158-168 | `_:id` is recognised as a blank node and gives back `id` |
| Turtle.LiteralToken | parsers/TurtleParser.php:179-203 | a printable literal's text is taken for a literal |
| Turtle.LiteralParse | parsers/TurtleParser.php:191-203 | a printable literal's text parses back as the literal, with a missing datatype or language read as "" |
| Turtle.SubjectToken | serializers/TurtleSerializer.php:112-119 | the subject token of a printable resource or blank node parses back as that node |
| Turtle.ObjectToken | serializers/TurtleSerializer.php:124-137 | the object token of a printable node parses back as that node, read back |
| Turtle.ParseLine | parsers/TurtleParser.php:144-211 | the serializer's line of a printable statement is not a declaration and parses back as that statement, read back |
| Turtle.ParseOfPieces | parsers/TurtleParser.php:147-211 | a line of four pieces whose subject, predicate and object parse gives the statement of those three nodes |
| Turtle.LineShape | serializers/TurtleSerializer.php:139-140 | a written line is a newline-free body and one "\n", and never a comment line |
| Turtle.LineEffectOfLine | parsers/TurtleParser.php:99-112 | handling a written line adds its statement, read back, and leaves the prefix map alone |
| Turtle.BodyCons | serializers/TurtleSerializer.php:106-141 | the statement text is the first line followed by the text of the rest |
| Turtle.LoadStep | parsers/TurtleParser.php:79-81 | a line that is kept and handled has its effect, and the load goes on with the rest |
| Turtle.LoadBody | parsers/TurtleParser.php:68-92 | loading the statement lines adds every statement back, read back, in order, and leaves the prefix map as it is |
| Turtle.PutAllFresh | model/Model.php:129-138 | declaring prefixes not yet bound appends them to the map in order |
| Turtle.PrefixLineEffect | parsers/TurtleParser.php:120-136 | handling a written declaration binds its prefix to its namespace and leaves the statements alone |
| Turtle.LoadHeader | parsers/TurtleParser.php:68-92 | loading the declarations binds every prefix in order; as written only when no namespace holds '#' |
| Turtle.HeaderStep | parsers/TurtleParser.php:79-81 | the first declaration of a header binds its prefix before the rest is loaded |
| Turtle.DocumentRoundTrip | parsers/TurtleParser.php:68-92 | writing a model and loading the text into a model without prefixes gives back its prefix map and its statements, read back, for every model the kept-line and prefix conditions admit |
| Turtle.FixedRoundTrip | parsers/TurtleParser.php:68-212 | with both fixes, every printable model round-trips whole: its prefix map and its statements, read back |
| Turtle.UnprefixedRejected | parsers/TurtleParser.php:162-164 | as written, the line of a statement whose subject has no truthy prefix throws when read back |
| Turtle.HashNamespaceDropped | parsers/TurtleParser.php:80 | as written, a declaration of a namespace holding '#' is skipped and its prefix stays unbound; with only comments skipped it is bound |
| Json.ReplaceSingle | serializers/JsonSerializer.php:175 | `str_replace` of a one-character search string replaces exactly every occurrence of that character |
| Json.ReplaceSame | serializers/JsonSerializer.php:173-175 | replacing a string by itself changes nothing, so the `"\b"` pair of the chain is an identity step |
| Json.ReplaceCharAppend | serializers/JsonSerializer.php:175 | a character replacement works on each part of a concatenation separately |
| Json.ChainIsCharSteps | serializers/JsonSerializer.php:171-176 | the chain of `jsonEscape` is the chain of its seven character replacements |
| Json.CharStepsAppend | serializers/JsonSerializer.php:171-176 | the chain works on each part of a concatenation separately |
| Json.CharStepsChar | serializers/JsonSerializer.php:173-175 | the chain turns a single character into its escape |
| Json.EscapeChainIsMap | serializers/JsonSerializer.php:171-176 | `jsonEscape` escapes every character on its own: no replacement brings in a character a later pair looks for |
| Json.UnescapeChar | serializers/JsonSerializer.php:173-174 | decoding an escaped character followed by more text gives the character followed by the decoded rest |
| Json.UnescapeEscape | serializers/JsonSerializer.php:171-176 | a JSON decoder reads the output of `jsonEscape` back as its input, for every input free of the control characters it leaves raw |
| Json.EscapeNoBreaks | serializers/JsonSerializer.php:171-176 | no raw line feed, carriage return, tab or form feed survives `jsonEscape` |
| Json.BackspaceStaysRaw | serializers/JsonSerializer.php:173 | a backspace passes through raw and is not valid inside a JSON string, since PHP's `"\b"` is not the backspace |
| Json.Grouped | serializers/JsonSerializer.php:93-94 | the grouping loop gives a map with distinct keys |
| Json.SelectAbsent | serializers/JsonSerializer.php:93-94 | a key that no statement has selects no value |
| Json.GroupedLookup | serializers/JsonSerializer.php:93-94 | after the grouping loop every key of the input holds exactly its values, in input order, and no other key is set |
| Json.AddToLookup | serializers/JsonSerializer.php:94 | one more step of the grouping loop keeps that description |
| Json.AddToOther | serializers/JsonSerializer.php:94 | appending to a group leaves every other group as it was |
| Json.AddToSame | serializers/JsonSerializer.php:94 | appending to a group adds the value at its end |
| Json.TotalPut | serializers/JsonSerializer.php:94 | replacing a group changes the number of values by the difference of the group lengths |
| Json.GroupedTotal | serializers/JsonSerializer.php:93-94 | the grouping loop loses and duplicates no value |
| Json.GroupedStep | serializers/JsonSerializer.php:93-94 | the grouping of one more statement is the earlier grouping with that statement appended |
| Json.BelowIrreflexive | serializers/JsonSerializer.php:96 | no key sorts before itself |
| Json.BelowTotal | serializers/JsonSerializer.php:96 | of two different keys one sorts before the other |
| Json.BelowTrans | serializers/JsonSerializer.php:96 | the order `ksort` uses is transitive |
| Json.Insert | serializers/JsonSerializer.php:96 | inserting an entry adds exactly that entry |
| Json.InsertSorted | serializers/JsonSerializer.php:96 | inserting an entry with a new key into a sorted map keeps it sorted |
| Json.KSort | serializers/JsonSerializer.php:96 | `ksort` gives a permutation of the entries in strictly ascending key order |
| Json.SortedDistinct | serializers/JsonSerializer.php:96 | a strictly sorted map has distinct keys |
| Json.KSortLookup | serializers/JsonSerializer.php:96 | sorting keeps what every key looks up |
| Json.KSortTotal | serializers/JsonSerializer.php:96 | sorting keeps the number of values |
| Json.SortedGroups | serializers/JsonSerializer.php:93-96 | grouping then `ksort` gives ascending distinct keys, exactly the input's keys, each with its values in input order, and no value lost or duplicated |
| Json.SubjectKeys | serializers/JsonSerializer.php:94 | one key per statement: the URI of its subject |
| Json.PredicateKeys | serializers/JsonSerializer.php:115 | one key per statement: the URI of its predicate |
| Json.Objects | serializers/JsonSerializer.php:115 | one value per statement: its object |
| Json.JoinCons | serializers/JsonSerializer.php:100-101 | the joined text is the first part, then a comma before each later part |
| Json.JoinStep | serializers/JsonSerializer.php:100-101 | a loop turn adds a comma exactly when it is not the first, then its part |
| Json.Records | serializers/JsonSerializer.php:130-155 | one record per object, in order |
| Json.PredicateEntries | serializers/JsonSerializer.php:120-157 | one entry per predicate group, in order |
| Json.SubjectEntries | serializers/JsonSerializer.php:98-159 | one entry per subject group, in order |
| Json.RecordCountIsTotal | serializers/JsonSerializer.php:98-159 | the records of the subject groups number as many as their statements |
| Json.RecordsPerStatement | serializers/JsonSerializer.php:93-159 | the document holds one object record per statement of the model |
| Json.SubjectGroupsSpec | serializers/JsonSerializer.php:91-96 | the subject groups have ascending subject URIs, exactly those of the model, each with its statements in store order |
| Json.PredicateGroupsSpec | serializers/JsonSerializer.php:112-117 | the predicate groups of a subject have ascending predicate URIs, each with its objects in store order |
| Json.GroupBySubject | serializers/JsonSerializer.php:91-94 | the loop builds the grouping of the statements by subject URI |
| Json.GroupByPredicate | serializers/JsonSerializer.php:112-115 | the loop builds the grouping of a subject's objects by predicate URI |
| Json.JsonSerializer.constructor | serializers/JsonSerializer.php:30-32 | a new serializer holds no content |
| Json.JsonSerializer.Transform | serializers/JsonSerializer.php:80-163 | an empty model throws with the model-is-empty message and leaves the content as it was; otherwise the content is the document and is returned |
| Json.JsonSerializer.WriteSubjects | serializers/JsonSerializer.php:97-159 | the subject loop appends the subject entries, comma-separated |
| Json.JsonSerializer.WriteSubject | serializers/JsonSerializer.php:103-158 | one subject: its key, with "_:" for a blank node, then its predicate entries in braces |
| Json.JsonSerializer.WritePredicates | serializers/JsonSerializer.php:119-157 | the predicate loop appends the predicate entries, comma-separated |
| Json.JsonSerializer.WritePredicate | serializers/JsonSerializer.php:124-156 | one predicate: its key, then its object records in brackets |
| Json.JsonSerializer.WriteObjects | serializers/JsonSerializer.php:129-155 | the object loop appends the records, comma-separated |
| Json.JsonSerializer.WriteObject | serializers/JsonSerializer.php:134-154 | one record by the object's kind: a blank node's `_:id` and "bnode", a literal's text and "literal" with its language and datatype when set, a resource's URI and "uri" |
| Json.JsonSerializer.SerializeToString | serializers/JsonSerializer.php:65-71 | gives the document and clears the content afterwards; an empty model throws |
| SparqlParsers.FindFrom | sparql/sparqlEngine/SparqlParser.php:51 | finds the first case-insensitive occurrence at or after an index, or reports that there is none |
| SparqlParsers.LastIndex | sparql/sparqlEngine/SparqlParser.php:165 | `strrpos` gives the last index of the character, or false exactly when it does not occur |
| SparqlParsers.TrimStart | sparql/sparqlEngine/SparqlParser.php:166 | skips exactly the leading blanks |
| SparqlParsers.TrimEnd | sparql/sparqlEngine/SparqlParser.php:166 | drops exactly the trailing blanks |
| SparqlParsers.Trim | sparql/sparqlEngine/SparqlParser.php:166 | `trim` gives a text neither starting nor ending with a blank, no longer than its input |
| SparqlParsers.FirstIndex | sparql/sparqlEngine/SparqlParser.php:168 | the first index of a character that occurs |
| SparqlParsers.FirstIndexAt | sparql/sparqlEngine/SparqlParser.php:168 | the first index is the one before which the character does not occur |
| SparqlParsers.Split | sparql/sparqlEngine/SparqlParser.php:171 | `explode` on one character gives at least one piece, none holding the separator, which joined by the separator give the input back |
| SparqlParsers.SplitJoin | sparql/sparqlEngine/SparqlParser.php:171 | splitting joined separator-free pieces gives the pieces back |
| SparqlParsers.ResultFormat | sparql/sparqlEngine/SparqlParser.php:90-105 | the form is SELECT exactly when SELECT occurs, else ASK exactly when ASK occurs, else CONSTRUCT, else DESCRIBE; when none occurs it throws the format error |
| SparqlParsers.VariableMatches | sparql/sparqlEngine/SparqlParser.php:129 | every match of the variable pattern is a variable, '?' and letters or digits |
| SparqlParsers.NoVariablesIff | sparql/sparqlEngine/SparqlParser.php:129-135 | the pattern finds nothing exactly when no '?' is followed by a letter or digit |
| SparqlParsers.SelectRegion | sparql/sparqlEngine/SparqlParser.php:129 | without WHERE the searched text is empty, since the length is false |
| SparqlParsers.AddVariablesSpec | sparql/sparqlEngine/SparqlParser.php:131-132 | adding matched variables never fails, keeps every match and keeps the result variables distinct |
| SparqlParsers.SpaceFrom | sparql/sparqlEngine/SparqlParser.php:112 | the first space at or after an index, or the end |
| SparqlParsers.DeclarationAt | sparql/sparqlEngine/SparqlParser.php:112 | a match of the declaration pattern gives a prefix of letters and digits and a non-empty namespace without spaces, and ends after where it starts |
| SparqlParsers.DeclarationMatches | sparql/sparqlEngine/SparqlParser.php:112 | every declaration found has that shape |
| SparqlParsers.DeclarationFound | sparql/sparqlEngine/SparqlParser.php:112 | "prefix: <namespace> " at an index is matched there, with that prefix and namespace |
| SparqlParsers.AddNamespacesStep | sparql/sparqlEngine/SparqlParser.php:116-118 | the declarations are added one after another, the first that throws ending the loop |
| SparqlParsers.AddNamespacesSpec | sparql/sparqlEngine/SparqlParser.php:114-118 | adding the declarations succeeds exactly when every namespace is valid, and then binds every declared prefix |
| SparqlParsers.WhereSegments | sparql/sparqlEngine/SparqlParser.php:164-171 | the text of the triples gives at least one segment |
| SparqlParsers.AddTriplesStep | sparql/sparqlEngine/SparqlParser.php:173-177 | the triples are added one segment after another, the first that throws ending the loop |
| SparqlParsers.AddTriplesCounts | sparql/sparqlEngine/SparqlParser.php:173-177 | adding the triples of the segments adds exactly one triple per segment and changes nothing else of the query |
| SparqlParsers.ParseSpec | sparql/sparqlEngine/SparqlParser.php:46-83 | a query holding FROM in any case throws the FROM error before anything else |
| SparqlParsers.OnlySelect | sparql/sparqlEngine/SparqlParser.php:58-73 | a query with no form throws the format error, one whose form is ASK, CONSTRUCT or DESCRIBE throws the not-supported error |
| SparqlParsers.OtherForm | sparql/sparqlEngine/SparqlParser.php:65-72 | a form other than SELECT throws the not-supported error |
| SparqlParsers.FormOfName | sparql/sparqlEngine/SparqlQuery.php:181-190 | the four form names are accepted by `setResultForm`, and only SELECT is the SELECT form |
| SparqlParsers.VariablesFirst | sparql/sparqlEngine/SparqlParser.php:60-80 | a SELECT query with no variable before the first WHERE throws the variables error, whatever its prefixes say, since variables are read first |
| SparqlParsers.SelectNeedsWhere | sparql/sparqlEngine/SparqlParser.php:129-135 | a SELECT query without WHERE always throws the variables error |
| SparqlParsers.ParsedQuery | sparql/sparqlEngine/SparqlParser.php:46-83 | a parsed query is a SELECT with exactly the variables matched before WHERE, exactly the declared prefixes when PREFIX occurs and none otherwise, and one triple per segment when WHERE occurs and none otherwise |
| SparqlParsers.SelectParsed | sparql/sparqlEngine/SparqlParser.php:54-62 | a SELECT query with no FROM goes on from a fresh query holding its text and the SELECT form |
| SparqlParsers.AfterFormFacts | sparql/sparqlEngine/SparqlParser.php:62-80 | the steps after the form leave the state that `ParsedQuery` describes |
| SparqlParsers.SelectStep | sparql/sparqlEngine/SparqlParser.php:127-136 | after the variables only the result variables are set |
| SparqlParsers.PrefixStep | sparql/sparqlEngine/SparqlParser.php:76-77 | after the prefixes the declared ones are bound when PREFIX occurs, and none otherwise |
| SparqlParsers.WhereStep | sparql/sparqlEngine/SparqlParser.php:79-80 | after the triples there is one per segment when WHERE occurs, and none otherwise |
| SparqlParsers.AddNamespacesValid | sparql/sparqlEngine/SparqlParser.php:116-118 | adding declarations keeps the query's invariant |
| SparqlParsers.AddTriplesValid | sparql/sparqlEngine/SparqlParser.php:173-177 | adding triples keeps the query's invariant |
| SparqlParsers.HandleSelect | sparql/sparqlEngine/SparqlParser.php:127-136 | on the query object: the variables are added as `handleSelect` specifies, or its error is thrown with what was added so far |
| SparqlParsers.HandleNamespaces | sparql/sparqlEngine/SparqlParser.php:110-122 | on the query object: the prefixes are added as `handleNamespaces` specifies, or its error is thrown |
| SparqlParsers.HandleWhere | sparql/sparqlEngine/SparqlParser.php:162-178 | on the query object: the triples are added as `handleWhere` specifies, or its error is thrown |
| SparqlParsers.Parse | sparql/sparqlEngine/SparqlParser.php:46-83 | `parse` gives a fresh query in exactly the state of the specification, or exactly its error |
| SparqlQueries.ToUpper | sparql/sparqlEngine/SparqlQuery.php:186 | `strtoupper` keeps the length and upper-cases each ASCII letter |
| SparqlQueries.ParseForm | sparql/sparqlEngine/SparqlQuery.php:184-206 | a form name is accepted exactly when its upper-case text is one of the four form names, and then gives that form; any other throws the format error |
| SparqlQueries.UpperIdempotent | sparql/sparqlEngine/SparqlQuery.php:186 | upper-casing twice is upper-casing once |
| SparqlQueries.ParseFormCaseInsensitive | sparql/sparqlEngine/SparqlQuery.php:184-206 | the form is read case-insensitively, and every form name reads back as its form |
| SparqlQueries.VariableExamples | tests/sparql/sparqlEngine/SparqlQueryTest.php:65-93 | "?x" and "?nameX" are variables, while "?x+", "?" and "x" are not |
| SparqlQueries.AlnumEnd | sparql/sparqlEngine/SparqlQuery.php:240 | the end of the alphanumeric run from an index |
| SparqlQueries.BlankId | sparql/sparqlEngine/SparqlQuery.php:240-241 | the id of a blank-node token is a non-empty alphanumeric name |
| SparqlQueries.LetterEnd | sparql/sparqlEngine/SparqlQuery.php:245 | the end of the run of letters from an index |
| SparqlQueries.LineEnd | sparql/sparqlEngine/SparqlQuery.php:245 | the first line break at or after an index, or the end |
| SparqlQueries.LastQuote | sparql/sparqlEngine/SparqlQuery.php:245 | the last '"' in a range, or none |
| SparqlQueries.NotHttp | util/Check.php:27-68 | a text not starting with 'h' has no "http://" scheme |
| SparqlQueries.LiteralClose | sparql/sparqlEngine/SparqlQuery.php:245 | the closing quote of the literal pattern follows an opening quote and at least one character, with no line break between them |
| SparqlQueries.AnnotationAt | sparql/sparqlEngine/SparqlQuery.php:245 | a suffix group, when it matches, ends after where it starts |
| SparqlQueries.Annotations | sparql/sparqlEngine/SparqlQuery.php:245 | `{0,2}` takes at most two suffix groups |
| SparqlQueries.TransformToNode | sparql/sparqlEngine/SparqlQuery.php:216-250 | a variable is kept as its text, and a token is kept as text only when it is a variable; a resource it gives has a valid URI |
| SparqlQueries.QuotedToken | sparql/sparqlEngine/SparqlQuery.php:244-249 | the last case gives a literal or throws |
| SparqlQueries.LookupValid | sparql/sparqlEngine/SparqlQuery.php:82-88 | a registered prefix maps to a valid namespace |
| SparqlQueries.NamespaceNameIsUri | sparql/sparqlEngine/SparqlQuery.php:236 | a namespace followed by a name is a URI |
| SparqlQueries.TransformPrefixed | sparql/sparqlEngine/SparqlQuery.php:230-237 | `prefix:name` with a registered prefix gives the resource of the namespace followed by the name; with an unregistered prefix it throws the missing-namespace error |
| SparqlQueries.PrefixedNotHttp | sparql/sparqlEngine/SparqlQuery.php:226-230 | a prefixed name is never taken for a URI |
| SparqlQueries.TransformBlank | sparql/sparqlEngine/SparqlQuery.php:240-241 | `_:id`, possibly followed by a tail that does not start with a letter or digit, gives the blank node `id` |
| SparqlQueries.NotPrefixed | util/Check.php:90-114 | a text not starting with a letter or digit is no prefixed name |
| SparqlQueries.TransformLiteral | sparql/sparqlEngine/SparqlQuery.php:245-246 | a quoted text with no suffix group gives a literal with no datatype and no language |
| SparqlQueries.TransformQuoted | sparql/sparqlEngine/SparqlQuery.php:244-246 | a token that is nothing else and has a closing quote gives the literal between the quotes, with the captures of its suffix groups |
| SparqlQueries.TransformOther | sparql/sparqlEngine/SparqlQuery.php:216-249 | a token that is no variable, URI, prefixed name or blank node reaches the last case |
| SparqlQueries.TransformTypedLiteral | sparql/sparqlEngine/SparqlQuery.php:245-246 | `"body"^^xsd:type` gives the literal with that datatype and no language |
| SparqlQueries.TypedSuffix | sparql/sparqlEngine/SparqlQuery.php:245 | `^^xsd:` and letters ending the text are one datatype group |
| SparqlQueries.TransformTaggedLiteral | sparql/sparqlEngine/SparqlQuery.php:245-246 | `"body"@lang` gives the literal with that language and the datatype "" |
| SparqlQueries.TaggedSuffix | sparql/sparqlEngine/SparqlQuery.php:245 | `@` and letters ending the text are one language group |
| SparqlQueries.LiteralShape | sparql/sparqlEngine/SparqlQuery.php:218-245 | a quoted token is no variable, URI, prefixed name or blank node, and its closing quote is the one after the body |
| SparqlQueries.TransformRejects | tests/sparql/sparqlEngine/SparqlQueryTest.php:98-111 | "bla:y" with no prefix "bla" throws the missing-namespace error, and "y" throws |
| SparqlQueries.AddNamespaceSpec | sparql/sparqlEngine/SparqlQuery.php:80-89 | adding a prefix succeeds exactly for a valid namespace and prefix, with the namespace checked first; then the prefix maps to the namespace, every other prefix keeps its binding, and nothing else changes |
| SparqlQueries.LookupPutAll | sparql/sparqlEngine/SparqlQuery.php:88 | after an assignment the key gives the new value and every other key its old one |
| SparqlQueries.AddResultVariableSpec | sparql/sparqlEngine/SparqlQuery.php:98-104 | adding a variable succeeds exactly for a valid variable, which is then stored under its own name; nothing else changes |
| SparqlQueries.AddResultVariableTwice | sparql/sparqlEngine/SparqlQuery.php:103 | adding a variable twice is adding it once |
| SparqlQueries.AddWhereTripleSpec | sparql/sparqlEngine/SparqlQuery.php:115-122 | adding a triple succeeds exactly when its three tokens transform, and then appends the triple under its subject text; nothing else changes |
| SparqlQueries.SetResultFormSpec | sparql/sparqlEngine/SparqlQuery.php:184-206 | setting the form succeeds exactly for a form name, which it sets; any other throws the format error |
| SparqlQueries.TripleCountPut | sparql/sparqlEngine/SparqlQuery.php:121 | replacing a subject's triples changes the count by the difference |
| SparqlQueries.AddWhereTripleCounts | sparql/sparqlEngine/SparqlQuery.php:115-122 | each successful `addWhereTriple` stores exactly one more triple and keeps the subject keys distinct |
| SparqlQueries.StepsKeepValid | sparql/sparqlEngine/SparqlQuery.php:80-206 | every successful step keeps distinct keys and valid namespaces |
| SparqlQueries.SparqlQuery.constructor | sparql/sparqlEngine/SparqlQuery.php:69-71 | a new query is empty |
| SparqlQueries.SparqlQuery.SetQueryString | sparql/sparqlEngine/SparqlQuery.php:165-167 | only the text changes |
| SparqlQueries.SparqlQuery.AddNamespace | sparql/sparqlEngine/SparqlQuery.php:80-89 | on the object: the state `addNamespace` specifies, or its error with nothing changed |
| SparqlQueries.SparqlQuery.AddResultVariable | sparql/sparqlEngine/SparqlQuery.php:98-104 | on the object: the state `addResultVariable` specifies, or its error with nothing changed |
| SparqlQueries.SparqlQuery.AddWhereTriple | sparql/sparqlEngine/SparqlQuery.php:115-122 | on the object: the state `addWhereTriple` specifies, or its error with nothing changed |
| SparqlQueries.SparqlQuery.SetResultForm | sparql/sparqlEngine/SparqlQuery.php:184-206 | on the object: the state `setResultForm` specifies, or its error with nothing changed |
| SparqlPatterns.ShrinkMeasure | sparql/sparqlEngine/SparqlEngine.php:311 | marking a subject with triples as in process leaves fewer subjects to process, which bounds the recursion |
| SparqlPatterns.Build | sparql/sparqlEngine/SparqlEngine.php:281-346 | `buildRecursiveTreePattern` leaves the set of variables in process as it found it |
| SparqlPatterns.BuildTriples | sparql/sparqlEngine/SparqlEngine.php:314-334 | the triple loop gives one pattern triple per WHERE triple and leaves the set in process as it found it |
| SparqlPatterns.BuildObject | sparql/sparqlEngine/SparqlEngine.php:316-329 | the expansion of one object leaves the set in process as it found it |
| SparqlPatterns.BuildTriplesCons | sparql/sparqlEngine/SparqlEngine.php:314-334 | the loop handles the first triple, then the rest with the maps it left |
| SparqlPatterns.BuildExpands | sparql/sparqlEngine/SparqlEngine.php:307-345 | past its early returns, a subject is marked in process, its triples are built, then it is unmarked and its branch cached and returned |
| SparqlPatterns.PatternFrom | sparql/sparqlEngine/SparqlEngine.php:260-266 | the subject loop of `buildPattern` ends with nothing in process |
| SparqlPatterns.GoodGrows | sparql/sparqlEngine/SparqlEngine.php:342 | a branch that is good for some cached variables stays good as the cache grows |
| SparqlPatterns.BuildFacts | sparql/sparqlEngine/SparqlEngine.php:281-346 | expanding a variable keeps the maps consistent, and unless the cycle cut applies or it has no triples it returns a good branch headed by that variable, which is then cached; every branch newly cached is nested in the result |
| SparqlPatterns.MarkFacts | sparql/sparqlEngine/SparqlEngine.php:302-305 | marking a subject without triples keeps the maps consistent |
| SparqlPatterns.FreshFacts | sparql/sparqlEngine/SparqlEngine.php:307-345 | the expansion of a subject with triples, neither cached nor in process, gives a good branch and keeps the maps consistent |
| SparqlPatterns.BranchFacts | sparql/sparqlEngine/SparqlEngine.php:314-334 | a branch built while its variable is in process is acyclic and names only that variable and cached ones |
| SparqlPatterns.CacheFacts | sparql/sparqlEngine/SparqlEngine.php:338-342 | caching the new branch and unmarking its variable keeps the maps consistent |
| SparqlPatterns.BuildTriplesFacts | sparql/sparqlEngine/SparqlEngine.php:314-334 | the triple loop keeps the maps consistent and gives triples that mirror the WHERE triples, every newly cached branch nested in one of them |
| SparqlPatterns.ConsConforms | sparql/sparqlEngine/SparqlEngine.php:332-333 | the first triple and the later ones together mirror the WHERE triples |
| SparqlPatterns.ConsCovers | sparql/sparqlEngine/SparqlEngine.php:314-334 | every branch cached while building the triples is nested in one of them |
| SparqlPatterns.BuildObjectFacts | sparql/sparqlEngine/SparqlEngine.php:320-329 | an object is replaced exactly when it is a variable with triples of its own that the cycle cut does not stop |
| SparqlPatterns.BuildTwice | sparql/sparqlEngine/SparqlEngine.php:285-286 | expanding a variable a second time returns the same result and changes nothing: every variable is expanded at most once |
| SparqlPatterns.PatternFacts | sparql/sparqlEngine/SparqlEngine.php:260-266 | the subject loop keeps the maps consistent and every branch in the pattern good |
| SparqlPatterns.PatternFactsAdded | sparql/sparqlEngine/SparqlEngine.php:264-265 | the same when the loop's first key gets an entry |
| SparqlPatterns.LaterKeys | sparql/sparqlEngine/SparqlEngine.php:260 | the loop's later keys are distinct and missing from the pattern once the first is added |
| SparqlPatterns.GrowsTrans | sparql/sparqlEngine/SparqlEngine.php:342 | the cache only grows, across any number of steps |
| SparqlPatterns.PatternKeys | sparql/sparqlEngine/SparqlEngine.php:260-266 | the pattern's keys are those it started with, then the loop's keys that were not already expanded, the first of them included |
| SparqlPatterns.PatternStep | sparql/sparqlEngine/SparqlEngine.php:264-265 | one entry of the loop appends the new key's branch and keeps the pattern good |
| SparqlPatterns.PatternShape | sparql/sparqlEngine/SparqlEngine.php:249-273 | `buildPattern` gives an entry per WHERE subject not already expanded inside an earlier one, the first subject always among them; each branch is headed by its subject, mirrors the WHERE triples and is acyclic; every subject left out is nested in some entry |
| SparqlPatterns.PatternShapeKeys | sparql/sparqlEngine/SparqlEngine.php:260-266 | the keys of the pattern are distinct WHERE subjects in WHERE order, starting with the first |
| SparqlPatterns.PatternShapeBranches | sparql/sparqlEngine/SparqlEngine.php:260-266 | every branch of the pattern is good, and every WHERE subject without an entry is nested in one |
| SparqlPatterns.CycleExample | sparql/sparqlEngine/SparqlEngine.php:289-291 | for `?x p ?y . ?y p ?x`, `?y` is nested under `?x`, the inner `?x` keeps its plain object, and `?y` gets no entry of its own |
| SparqlPatterns.SingleTriplePattern | sparql/sparqlEngine/SparqlEngine.php:249-273 | for one triple `?x ?y ?z` the pattern is the single branch of `?x`, with the object kept as it is |
| SparqlTables.SetCell | sparql/sparqlEngine/SparqlEngine.php:695 | `$column[$row] = $x` gives the cell the new value, keeps every other cell and raises the high-water mark past the row |
| SparqlTables.PutColumnValid | sparql/sparqlEngine/SparqlEngine.php:695 | an assignment keeps a column a valid PHP array |
| SparqlTables.AppendCell | sparql/sparqlEngine/SparqlEngine.php:730 | `$column[] = $x` keeps a column a valid PHP array |
| SparqlTables.UnsetCell | sparql/sparqlEngine/SparqlEngine.php:661 | `unset` removes exactly that cell and keeps the high-water mark |
| SparqlTables.AppendIsSetAtNext | sparql/sparqlEngine/SparqlEngine.php:730 | `[]` assigns at the high-water mark |
| SparqlTables.AppendCellsConcat | sparql/sparqlEngine/SparqlEngine.php:730 | two runs of `[]` are one run of both |
| SparqlTables.SetCellTwice | sparql/sparqlEngine/SparqlEngine.php:695-701 | the second of two assignments to a cell wins |
| SparqlTables.LookupAfterPut | sparql/sparqlEngine/SparqlEngine.php:662 | replacing a column changes only that column |
| SparqlTables.RemoveRowSpec | sparql/sparqlEngine/SparqlEngine.php:658-664 | `removeRow` keeps every column, removes the row's cell from each, changes no other cell and no high-water mark, and keeps the table valid |
| SparqlTables.RemoveRowLookup | sparql/sparqlEngine/SparqlEngine.php:660-663 | the loop of `removeRow` reaches every column |
| SparqlTables.RemoveRowValid | sparql/sparqlEngine/SparqlEngine.php:658-664 | `removeRow` keeps the table valid |
| SparqlTables.Binding | sparql/sparqlEngine/SparqlEngine.php:687-701 | a statement gives a value for a column exactly when the column is one of the triple's variables |
| SparqlTables.BindAtSpec | sparql/sparqlEngine/SparqlEngine.php:694-701 | one guarded assignment sets that variable's cell and leaves every other column alone |
| SparqlTables.BindOneSpec | sparql/sparqlEngine/SparqlEngine.php:692-702 | one match sets the row's cell of each variable, subject first, and leaves every other column alone |
| SparqlTables.RowOf | sparql/sparqlEngine/SparqlEngine.php:713-714 | the collected row has one entry per column |
| SparqlTables.RowOfLookup | sparql/sparqlEngine/SparqlEngine.php:713-714 | the collected row holds, for every column, the row's cell (null when missing) |
| SparqlTables.RebindAtSpec | sparql/sparqlEngine/SparqlEngine.php:720-727 | one guarded rebinding sets that variable and keeps the row's keys distinct |
| SparqlTables.RebindSpec | sparql/sparqlEngine/SparqlEngine.php:720-727 | rebinding from a statement sets exactly the triple's variables to its parts |
| SparqlTables.AppendRowSpec | sparql/sparqlEngine/SparqlEngine.php:729-731 | appending a row adds its value at the end of each named column, creating it when missing |
| SparqlTables.CopiedCells | sparql/sparqlEngine/SparqlEngine.php:718-732 | one copied cell per match |
| SparqlTables.CopiedCellsAt | sparql/sparqlEngine/SparqlEngine.php:718-732 | each copy holds the match's part for the triple's variables and the collected value otherwise |
| SparqlTables.CopiedAfterRebind | sparql/sparqlEngine/SparqlEngine.php:718-732 | rebinding from one match does not change what later matches copy |
| SparqlTables.DuplicateSpec | sparql/sparqlEngine/SparqlEngine.php:718-732 | the loop over several matches appends, to each column, one cell per match in order |
| SparqlTables.ProcessRowSpec | sparql/sparqlEngine/SparqlEngine.php:676-737 | `processRow` returns false exactly when there is no match, and then changes nothing |
| SparqlTables.ProcessRowOne | sparql/sparqlEngine/SparqlEngine.php:692-702 | with one match the row's cell of every variable of the triple is overwritten, the column created when missing, and every other cell is left alone |
| SparqlTables.ProcessRowMany | sparql/sparqlEngine/SparqlEngine.php:704-734 | with several matches the row is removed and one row per match appended, in order: the match's part in a variable's column, the row's old value elsewhere |
| SparqlTables.DuplicateRow | sparql/sparqlEngine/SparqlEngine.php:711-732 | removing the row then copying it per match gives those columns |
| SparqlTables.CopiedRow | sparql/sparqlEngine/SparqlEngine.php:711-732 | the copies of a collected row are the cells `ProcessRowMany` states |
| SparqlTables.ResetVarsSpec | sparql/sparqlEngine/SparqlEngine.php:436-443 | the triple's variables get fresh empty columns and no other column changes |
| SparqlTables.AppendAtSpec | sparql/sparqlEngine/SparqlEngine.php:448-455 | one guarded append adds to that variable's column and leaves the rest alone |
| SparqlTables.AppendOptional | sparql/sparqlEngine/SparqlEngine.php:448-455 | a guarded append is a run of zero or one appends |
| SparqlTables.FillRowSpec | sparql/sparqlEngine/SparqlEngine.php:446-456 | one statement appends its parts to the columns of the variables, subject first |
| SparqlTables.FillSpec | sparql/sparqlEngine/SparqlEngine.php:446-456 | the fill loop appends, to each variable's column, the parts the matches give it, in store order |
| SparqlTables.FreshColumnsSpec | sparql/sparqlEngine/SparqlEngine.php:426-456 | possibility (1): every variable of the triple gets a fresh column holding, in store order, the parts the matches give it; every other column is unchanged |
| SparqlTables.GatheredOnce | sparql/sparqlEngine/SparqlEngine.php:446-456 | a variable that occurs once gathers exactly one part per match |
| SparqlTables.FreshColumnOnce | sparql/sparqlEngine/SparqlEngine.php:426-456 | for a variable that occurs once, its column holds one entry per match, keyed 0, 1, …, each the part of that same match |
| SparqlEvaluation.Resolve | sparql/sparqlEngine/SparqlEngine.php:382-415 | a position names a column exactly when it is a variable, and then passes null to `search` |
| SparqlEvaluation.RowArgs | sparql/sparqlEngine/SparqlEngine.php:505-592 | the search arguments of a row come from the joined columns; only the subject loop with predicate and object both set and the object's cell present searches nothing, as in case (4) |
| SparqlEvaluation.RowLoop | sparql/sparqlEngine/SparqlEngine.php:505-592 | a join loop keeps the rows already queued for deletion in front and queues only rows of the walked column |
| SparqlEvaluation.RowTurn | sparql/sparqlEngine/SparqlEngine.php:515-592 | one row's turn fails exactly when its search fails; it queues the row exactly when it searched and found nothing, and then leaves the table alone |
| SparqlEvaluation.RowLoopStep | sparql/sparqlEngine/SparqlEngine.php:507-519 | a loop's first row takes its turn, is queued exactly when its search found nothing, and the rest of the loop goes on from the table it left |
| SparqlEvaluation.FoundNothingShift | sparql/sparqlEngine/SparqlEngine.php:507-519 | a later row sees at its turn the same table whether counted from the loop's start or from after the first row |
| SparqlEvaluation.RowLoopQueued | sparql/sparqlEngine/SparqlEngine.php:502-592 | a join loop that succeeds appends to its queue exactly the rows whose search found nothing, in the order it meets them |
| SparqlEvaluation.QueuedHas | sparql/sparqlEngine/SparqlEngine.php:518-519 | every row whose search found nothing at its turn is queued |
| SparqlEvaluation.QueuedFrom | sparql/sparqlEngine/SparqlEngine.php:518-519 | every queued row is one whose search found nothing at its turn |
| SparqlEvaluation.RowTurnKeeps | sparql/sparqlEngine/SparqlEngine.php:676-737 | a row's turn never drops a column |
| SparqlEvaluation.RowLoopKeeps | sparql/sparqlEngine/SparqlEngine.php:505-592 | a join loop never drops a column |
| SparqlEvaluation.FirstSet | sparql/sparqlEngine/SparqlEngine.php:505-593 | the position whose loop runs is the first of subject, predicate and object whose variable has a column |
| SparqlEvaluation.JoinSingleLoop | sparql/sparqlEngine/SparqlEngine.php:502-593 | of the three guarded loops exactly one runs, that of the first position with a column |
| SparqlEvaluation.SubjectLoopOnly | sparql/sparqlEngine/SparqlEngine.php:505-558 | with the subject's column set only the subject loop runs |
| SparqlEvaluation.PredicateLoopOnly | sparql/sparqlEngine/SparqlEngine.php:558-583 | with the predicate's column set and not the subject's only the predicate loop runs |
| SparqlEvaluation.LaterLoopsSkip | sparql/sparqlEngine/SparqlEngine.php:558-593 | with the subject's column set the predicate and object loops do nothing |
| SparqlEvaluation.JoinDeletes | sparql/sparqlEngine/SparqlEngine.php:502-600 | after possibility (2) every queued row is unset in every column and every other row keeps its cells as the loop left them; the columns stay |
| SparqlEvaluation.JoinDeletesNoMatch | sparql/sparqlEngine/SparqlEngine.php:502-600 | possibility (2) deletes exactly the rows whose search found nothing: such a row is unset in every column of the joined table, and every other row keeps, in every column, the cell the join loop left it |
| SparqlEvaluation.DeleteExtends | sparql/sparqlEngine/SparqlEngine.php:518-519 | queuing at most one more row keeps the queue so far as a prefix |
| SparqlEvaluation.ApplyTriple | sparql/sparqlEngine/SparqlEngine.php:417-600 | a triple reports false exactly when none of its variables has a column and `search` finds nothing, and then leaves the table alone |
| SparqlEvaluation.FormatSpec | sparql/sparqlEngine/SparqlEngine.php:139-146 | the result lists the table's columns as its variables and carries the query text |
| SparqlEvaluation.QuerySpec | sparql/sparqlEngine/SparqlEngine.php:102-149 | an answered query carries its own text |
| SparqlEvaluation.FreshTriple | sparql/sparqlEngine/SparqlEngine.php:426-456 | possibility (1) with matches: a variable that occurs once gets a column with one entry per match, keyed 0, 1, …, each the part of that same match, and every match is a stored statement matching the triple's arguments |
| SparqlEvaluation.AllVariablesTable | sparql/sparqlEngine/SparqlEngine.php:372-604 | the branch of `?x ?y ?z` on a non-empty store succeeds with the fresh columns of all stored statements |
| SparqlEvaluation.AllVariablesBranch | sparql/sparqlEngine/SparqlEngine.php:426-456 | the triple `?x ?y ?z` on a non-empty store gives three columns with one row per stored statement, in store order, holding its subject, predicate and object |
| SparqlEvaluation.NestedFailure | sparql/sparqlEngine/SparqlEngine.php:393-405 | a nested branch that fails ends its enclosing branch with false, with the table as the nested branch left it |
| SparqlEvaluation.RemoveRowsSpec | sparql/sparqlEngine/SparqlEngine.php:596-599 | removing the queued rows unsets each of them in every column; every other cell, the columns and their order stay |
| SparqlEvaluation.FilterKeeps | sparql/sparqlEngine/SparqlEngine.php:612-623 | `filterBySelect` keeps exactly the columns named as result variables, in their order, with their values unchanged |
| SparqlEvaluation.FormatFallback | sparql/sparqlEngine/SparqlEngine.php:186-193 | every format other than "objectarray" prints like "array" |
| SparqlEvaluation.ColumnTextSpec | sparql/sparqlEngine/SparqlEngine.php:213-222 | a column prints at most one string per cell, exactly one when every cell is set |
| SparqlEvaluation.TextTableSpec | sparql/sparqlEngine/SparqlEngine.php:207-226 | in "array" mode a column with something to print is listed under its variable with those strings, one with nothing to print is absent |
| SparqlEvaluation.QueryVariables | sparql/sparqlEngine/SparqlEngine.php:102-168 | an answered query is a SELECT whose answer lists only result variables, and keeps every result-variable column the evaluation produced |
| SparqlEvaluation.AllVariablesQuery | tests/sparql/sparqlEngine/SparqlEngineTest.php:42-61 | for the WHERE clause `?x ?y ?z` on a non-empty store, the pattern has one branch and each of the three columns gets one row per stored statement |
| SparqlEngines.SparqlEngine.constructor | sparql/sparqlEngine/SparqlEngine.php:78-80 | a new engine holds no query, no model, empty maps, no pattern and an empty table |
| SparqlEngines.SparqlEngine.Init | sparql/sparqlEngine/SparqlEngine.php:234-241 | `init` clears everything but the result table |
| SparqlEngines.SparqlEngine.BuildRecursiveTreePattern | sparql/sparqlEngine/SparqlEngine.php:281-346 | the branch and the two maps are those of `Build`; nothing else changes |
| SparqlEngines.SparqlEngine.BuildTriplesLoop | sparql/sparqlEngine/SparqlEngine.php:314-334 | the loop's triples and maps are those of `BuildTriples` |
| SparqlEngines.SparqlEngine.BuildPattern | sparql/sparqlEngine/SparqlEngine.php:249-273 | the pattern is that of `PatternFrom`, and both maps are cleared afterwards |
| SparqlEngines.SparqlEngine.RemoveRow | sparql/sparqlEngine/SparqlEngine.php:658-664 | the table becomes `RemoveRow` of the old one |
| SparqlEngines.SparqlEngine.CollectRow | sparql/sparqlEngine/SparqlEngine.php:711-714 | the collected row is `RowOf` the table |
| SparqlEngines.SparqlEngine.AppendRowVars | sparql/sparqlEngine/SparqlEngine.php:729-731 | the table becomes `AppendRow` of the old one |
| SparqlEngines.SparqlEngine.BindRow | sparql/sparqlEngine/SparqlEngine.php:692-702 | the table becomes `BindOne` of the old one |
| SparqlEngines.SparqlEngine.DuplicateRow | sparql/sparqlEngine/SparqlEngine.php:704-734 | the row is collected, removed and appended once per match, as `Duplicate` states |
| SparqlEngines.SparqlEngine.ProcessRow | sparql/sparqlEngine/SparqlEngine.php:676-737 | the table and the result are those of `ProcessRowSpec` |
| SparqlEngines.SparqlEngine.ResetColumns | sparql/sparqlEngine/SparqlEngine.php:436-443 | the triple's variables get empty columns |
| SparqlEngines.SparqlEngine.AppendParts | sparql/sparqlEngine/SparqlEngine.php:448-455 | one statement's parts are appended to the variables' columns |
| SparqlEngines.SparqlEngine.FillColumns | sparql/sparqlEngine/SparqlEngine.php:436-456 | the table becomes `FreshColumns` of the old one |
| SparqlEngines.SparqlEngine.JoinLoop | sparql/sparqlEngine/SparqlEngine.php:505-592 | the loop's queue and table are those of `RowLoop` over the column as it was when the loop started |
| SparqlEngines.SparqlEngine.GuardedJoinLoop | sparql/sparqlEngine/SparqlEngine.php:558-593 | a loop runs only when its condition holds, as `LoopIf` states |
| SparqlEngines.SparqlEngine.JoinLoops | sparql/sparqlEngine/SparqlEngine.php:502-593 | the three loops run as `JoinLoops` states |
| SparqlEngines.SparqlEngine.LaterLoops | sparql/sparqlEngine/SparqlEngine.php:558-593 | the predicate and object loops run as `LaterLoops` states |
| SparqlEngines.SparqlEngine.ObjectLoop | sparql/sparqlEngine/SparqlEngine.php:583-593 | the object loop runs when neither subject nor predicate has a column and the object has one |
| SparqlEngines.SparqlEngine.RemoveRows | sparql/sparqlEngine/SparqlEngine.php:596-599 | the table becomes `RemoveRows` of the old one |
| SparqlEngines.SparqlEngine.Join | sparql/sparqlEngine/SparqlEngine.php:457-600 | possibility (2) leaves the table `Join` gives, or its error; by `JoinDeletesNoMatch` that table has every row whose search found nothing deleted |
| SparqlEngines.SparqlEngine.ApplyTriple | sparql/sparqlEngine/SparqlEngine.php:417-600 | one triple leaves the table and result `ApplyTriple` gives |
| SparqlEngines.SparqlEngine.ApplyJoined | sparql/sparqlEngine/SparqlEngine.php:457-600 | possibility (2) as `ApplyTriple` states it: the result is true and the table is that of `Join`, in which every row whose search found nothing is deleted (`JoinDeletesNoMatch`) |
| SparqlEngines.SparqlEngine.ApplyFresh | sparql/sparqlEngine/SparqlEngine.php:426-456 | possibility (1) as `ApplyTriple` states it: no match gives false, matches give fresh columns |
| SparqlEngines.SparqlEngine.ApplyPatternRecursively | sparql/sparqlEngine/SparqlEngine.php:372-604 | the branch leaves the table and result `ApplyBranch` gives |
| SparqlEngines.SparqlEngine.ApplyPattern | sparql/sparqlEngine/SparqlEngine.php:354-364 | the table starts empty and ends as `ApplyPatternSpec` gives, which is returned |
| SparqlEngines.SparqlEngine.FilterBySelect | sparql/sparqlEngine/SparqlEngine.php:612-623 | the result is `Filter` of the table by the result variables |
| SparqlEngines.SparqlEngine.ColumnStrings | sparql/sparqlEngine/SparqlEngine.php:213-222 | the strings of a column are `ColumnText` |
| SparqlEngines.SparqlEngine.FormatArray | sparql/sparqlEngine/SparqlEngine.php:203-229 | the variables are the table's keys, and the table is printed or kept as nodes as `stringify` says |
| SparqlEngines.SparqlEngine.Format | sparql/sparqlEngine/SparqlEngine.php:178-194 | the result is `FormatSpec` of the table, for any query text |
| SparqlEngines.SparqlEngine.QuerySelect | sparql/sparqlEngine/SparqlEngine.php:158-168 | the result is the pattern applied to the store, then filtered by the result variables |
| SparqlEngines.SparqlEngine.Query | sparql/sparqlEngine/SparqlEngine.php:102-149 | `query` gives exactly `QuerySpec` of the text, the store's statements and the format |
| SparqlEngines.DoQuery | sparql/sparqlEngine/SparqlEngine.php:89-93 | `doQuery` gives exactly `QuerySpec` as well |

## Left out

- File I/O. This covers `Model.save`/`load`, the serializers' `serialize($file, …)` and the `file_exists`/`fopen`/`fgets` parts of the parsers. A parser's input is the text of the file, split into lines as `fgets` splits it; `fgets`' 4096-byte line cap is not modelled.
- The API's `save`/`load` dispatch on a format name is not part of this model; each format is called directly.
- RDF/XML (`parsers/RDFXMLParser.php`, `serializers/RDFXMLSerializer.php`): both are built on the DOMDocument library.
- `parsers/JsonParser.php`: its input comes from `json_decode`, which is not modelled.
- Query timing (`microtime`, `number_format`, `getTime`): the "time" entry of the query result is not modelled.
- The printers: `Model.toString`, `statemensToString`, the unimplemented `toHTML`, `Node::toString` and `Statement::toString`.
- The wiring files: the autoloader, the include lists, the constants files, `API.php`, the exception classes, the interfaces and the test settings. The error texts are kept only where a contract distinguishes errors.
- PHP loose `==` with numeric-string coercion: every string comparison is exact equality.
- PHP 5 `substr` returning `false` where PHP 8 returns `""`: the model uses `""`. Both are falsy wherever the code tests them, and the datatype comparison in `LiteralNodes.Equals` treats null, `""` and `false` alike. Only PHP 5 would also equate a `false` datatype with the datatype "0", which the model does not.
- PHP's re-keying of numeric-string array keys (`"0"`, `"12"`) under `ksort` and `[]`: keys are kept as the strings they are.
- The parser and serializer objects. The parsers' only state is the model they fill, so each parser is a set of module functions plus a loop method taking that `Store.Model`.
- `Check::isModel`: a type test on the argument, which Dafny's types make unnecessary.
- The trivial accessors: the `Resource` type field (`getType`/`setType`) and getters that return a field.
- Resource objects shared by reference. `addProperty` changes a shared PHP object in place, and `statementListToResourceList` updates the stored subjects in place. The model builds fresh trees, so aliasing between resources is not captured.
- The cycle-free precondition: decorated resources are finite trees, so a cyclic resource passed to `add` or `remove`, which the code does not guard against, cannot be built.
- `searchResources` on an empty store: the code loops over the `null` that `search` returns and then throws. `ResourceLists.SearchResources` goes straight to that error.
- Json.UnescapeEscape: requires that the string hold no control character other than newline, carriage return, tab and form feed. `jsonEscape` leaves the other control characters raw, so those strings cannot round-trip.
- The `\uXXXX` escapes of JSON: `jsonEscape` produces none, so they are not modelled.
- The JSON key of a literal in subject or predicate position is not modelled (`Json.KeyOf` gives `""`), because the roles rule literals out there.
- The concrete fixtures of the parser round-trip tests (7 statements) and of the engine's join query (1 row) are not instantiated. The general round-trip lemmas and `SparqlEvaluation.AllVariablesQuery` state what those tests check.
- SparqlEngines.SparqlEngine.Query: the query object it leaves behind is not stated. Only the result is.
- Store.Model.Contains: returns `Ok(false)` when a non-empty store holds no equal statement. The PHP loop then falls off the end of `contains` and returns null. Both are falsy, and the only caller, `addStatement`, negates the result, so the store behaves the same.
- PHP strings are byte strings; the model's strings are sequences of characters. Every delimiter the core searches for or splits on is ASCII, so `strpos`, `explode`, `substr($s, 1, -1)` and the `ksort` order give the same results on UTF-8 input read either way.
- Statements.NewStatement: a statement keeps only its three nodes. The PHP statement holds the objects it was given, so the properties of a decorated subject or object passed straight to `new Statement` stay reachable through its getters; here they are dropped. `addResource` passes property-less clones, so the store's statements are the same either way.

## Findings

| source | as written | input that shows it | evidently intended | confidence | as-written member | corrected member |
|---|---|---|---|---|---|---|
| parsers/NTripleParser.php:71 | `strpos($line, "#") === false` skips every line holding a '#' anywhere, so a statement whose URI has a fragment is dropped on reading | the serialized line of `<http://example.org/ns#me> <http://example.org/ns#knows> <http://example.org/ns#you> .` loads as nothing | skip only comment lines, those starting with '#' | not executed | NTriples.HashLineDropped | NTriples.CommentsOnlyRoundTrip |
| parsers/TurtleParser.php:80 | the same filter in the Turtle parser also drops an `@prefix` line whose namespace ends in '#' | `@prefix ex:<http://example.org/ns#> .` leaves `ex` unbound | skip only comment lines | not executed | Turtle.HashNamespaceDropped | Turtle.FixedRoundTrip |
| parsers/TurtleParser.php:162-163 | `explode(":", …)` on a bracketed `<http://…>` token gives "<http" as the prefix, so `getNamespace` throws for every resource written without a prefix, including those the serializer writes | a statement whose subject's namespace has no prefix: its line cannot be read back | a token in angle brackets is read as the URI inside them | not executed | Turtle.UnprefixedRejected | Turtle.FixedRoundTrip |
