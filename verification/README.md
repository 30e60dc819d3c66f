# Verified model of the Fast DDS system handle

The system handle joins two dynamic type systems, xTypes and Fast DDS DynamicData, and carries
publish/subscribe and request/reply traffic between them. This project models its logic in Dafny and
proves what the bridge is meant to guarantee. `dafny verify dfyconfig.toml` checks all of it.

**Types and values.** `XTypes` and `Dds` hold the types and values of either side, `Flattening` the
row-major index arithmetic. `Compiler` is the builder of Fast DDS types and its cache. `Translation`
defines what the converters compute: `Write` into a buffer with older data in it, `Read` into a fresh
value. `DynamicDataBuffer` is the buffer class of Fast DDS with the contracts relied on. `ToDds` and
`FromDds` are the converters themselves, loop by loop, each proved to compute `Write` or `Read`.
`RoundTrip` and `History` prove what the pair means: the round trip, and that a reused buffer forgets.
`Correspondence` says part by part what it is that a buffer holds a value, and proves that the converters
keep to it, also with buffers that others filled. `Publishing` is the publisher around its one buffer.

**Paths.** `Paths` has the two walkers of dotted paths, one through types and one through data, and
exactly when they agree. `Navigation` is the tree of configured paths, grown in place, with the place
of each node as a ghost; `Discriminator` is its search along live data. `Routing` is the client: its
configuration, the tables it fills and their use when requests and responses come in. `Requests` says
what becomes of a request after any configurations.

**Protocol and threads.** `ServerSide` has the server's maps and critical sections. `Correlation` is a
transition system for requests forwarded from one domain to another and their replies, with the
server's mutex owned over the write of a request; `Serving` is the server that carries its part out,
and `Forwarding` joins the runs with the client's configuration. `Replies` says which replies get written
and that every pending request can be answered. `Reception` is a transition system
for the reception threads, the data mutex passed to them and the cleaner that joins them.
`Participation` has the tables of the participant and the runs of entities that open and close topics.

## Contracts taken from xTypes and Fast DDS

- Data, and every reference into data, gives itself the type behind any alias. The converters depend
  on it where they cast the type of a reference to that of a collection or aggregation
  (src/Conversion.cpp:428, 566, 687, 935, 1133, 1332, 1723), and the repository's own unit test does
  where it fills and checks the members of an aliased struct (test/unitary/conversion.cpp:415 and 540). Types of
  members and contents, in contrast, are as declared: the compiler, the tree and the type walker see
  the alias.
- An index vector addresses its row-major offset; the 8-bit integer accessors share one slot; map
  pairs get ids 2i and 2i+1; setting a discriminator selects the labelled or else the default member;
  selecting a union case by name sets its first label, or a value `spare` that no case has when only
  the default can be meant.

## Where the code falls short

- An array whose content is an alias of an array is compiled with fewer dimensions than the writer
  collects indexes (src/Conversion.cpp:2606 against 429): exactly when `Compiler.RanksAgree` says,
  for instance `Compiler.HiddenArray`.
- The type walker goes on past members without members of their own, where the data walker fails, and
  it stays at an alias of an aggregation, where the data walker goes on: exactly when
  `Paths.NamesAgree` says, for instance `Paths.WalkersDisagree` and `Paths.AliasDividesWalkers`.
- A type configured both as a request and as a reply has one path for both, the last one taken.
  `Routing.ReplyHasItsPath` says exactly when that path serves the reply, `Routing.SharedNameMisplaces`
  gives configurations for which it does not.
- When no path configured for the type of a request is live in it, the search yields a null pointer,
  and src/Client.cpp:592 follows it: exactly when `Requests.AfterConfigurations` says, for instance
  `Requests.OtherCaseComesIn`. A request type configured by a member that is declared by an alias is
  listed under the name of the alias, under which no data goes (`Discriminator.FoundByTrueName`), so
  that it is not found on its own account: `Requests.OneMember`, `Requests.AliasComesIn`.
- If it is found because the type behind the alias is listed as well, the reply is noted under the name
  of the alias (src/Client.cpp:592-594), but the callback and the server go by the name of the type
  behind (src/Client.cpp:602, src/Server.cpp:472): the reply is read for the one and placed for the
  other. So it is for a root that has no name, where no note is made at all, since its type was
  configured by a word that is not its name. `Forwarding.ReadAndPlaced` says exactly when the two names
  agree, `Requests.AliasIsMisrouted` and `Requests.RootIsMisspelt` are requests for which they do not.
- The last join loop holds the mutex that a thread needs in order to post. A thread that has converted
  its sample and not posted when the loop begins can never post, and the cleaner never returns;
  where threads have no way to give up, the same goes for one that has not converted yet.
  `Reception.FinalLoopReturns` says exactly when the cleaner can return, `Reception.StuckRun` gets to
  where it cannot.

## Model

| member | source | states |
|---|---|---|
| XTypes.ResolveKeepsValues | src/Conversion.cpp:345-353 | A type and the type behind its aliases have the same values, so looking through aliases changes nothing. |
| Flattening.UnravelThenOffset | src/Conversion.cpp:423-452 | Every flat index is the row-major offset of an index vector within the dimensions. |
| Flattening.OffsetThenUnravel | src/Conversion.cpp:423-452 | Every full index vector has an offset below the product of the dimensions, and is recovered from it: no two vectors share a cell. |
| Flattening.OffsetSnoc | src/Conversion.cpp:437-451 | Adding the next index moves on by that many inner blocks. |
| Flattening.BlockFits | src/Conversion.cpp:437-451 | The block of cells below a partial index vector lies inside the array. |
| Compiler.GetBuilder | src/Conversion.cpp:2429-2599 | The type built stands for the original: each primitive in a slot of its kind, the same bounds, wide flags, enumerators and dimensions, members, cases and their labels (cast to uint64) by name and in order, the discriminator type, and no aliases. |
| Compiler.CompiledStands | src/Conversion.cpp:2429-2614 | `Compile` gives a type that stands for the original in that sense, for every type. |
| Compiler.OneStands | src/Conversion.cpp:2429-2614 | There is only one such type. |
| Correspondence.BuiltKeepsBounds | src/Conversion.cpp:2429-2599 | Whatever data the type built admits, by whomever it is written, is read within the bounds of the original: lengths of strings, sequences and maps, dimensions of arrays, ranges of numbers. |
| Compiler.GetArraySpecs | src/Conversion.cpp:2601-2614 | Appends the dimensions outermost first and stops at the first content that is not itself an array, without looking through aliases; the content is compiled. |
| Compiler.RanksAgree | src/Conversion.cpp:2601-2614 | The compiled array has as many dimensions as the data writer collects indexes exactly when no alias hides an inner array. |
| Compiler.HiddenArray | src/Conversion.cpp:2606-2613 | An array of rows, rows being an alias of an array: one dimension is compiled where the writer collects two indexes. |
| Compiler.WordIdentifiesLabel | src/Conversion.cpp:1014-1058 | The uint64 written for a discriminator equals the cast label of another exactly when the original values are equal, for every discriminator kind. |
| Compiler.LabelsAgree | src/Conversion.cpp:2558-2579 | A value is among the labels exactly when its cast is among the cast labels. |
| Compiler.SelectionAgrees | src/Conversion.cpp:1008-1065 | The union member Fast DDS selects for the word written is the case xTypes has active, the default case included; none exactly when there is none. |
| Compiler.CaseDiscriminatorSelects | src/Conversion.cpp:2204-2230 | The discriminator that a union gets when a case is selected by name is valid and selects that case again. |
| Compiler.ConvertTypeName | src/Conversion.cpp:325-343 | The in-place loop terminates and yields the text after the last colon with each slash spelt as two underscores. |
| Compiler.ConvertedNameIsStable | src/Conversion.cpp:325-343 | A converted name has neither colon nor slash, and converting it again changes nothing. |
| Compiler.BuilderCache.CreateBuilder | src/Conversion.cpp:2410-2427 | Returns a type that stands for the first type seen under the name, with the converted name; for the type asked for, if names identify types. |
| Dds.Fresh | src/Participant.cpp:237-261 | The data of a newly created Fast DDS buffer is data of its type. |
| RoundTrip.WriteConforms | src/Conversion.cpp:929-1127 | Compiler and converter agree: what is written for a supported type, at any depth, is data of the type that the compiler produces. |
| RoundTrip.KeysStayDistinct | src/Conversion.cpp:683-735 | Keys that differ are stored as keys that differ, so no pair is dropped as a duplicate. |
| RoundTrip.CellsConform | src/Conversion.cpp:423-560 | The first n elements of an array fill n whole blocks with cells of the content type. |
| RoundTrip.BlockOfElement | src/Conversion.cpp:1718-1760 | Element i of an array is found in block i of the cells written. |
| Translation.InnerIsSlice | src/Conversion.cpp:1718-1760 | The cells of an element are a slice of the array's cells, one block of inner cells per element. |
| RoundTrip.ReadAfterWrite | src/Conversion.cpp:1971-2393 | Reading what was written, into whatever buffer, gives `Received` of the value, independently of the buffer. |
| RoundTrip.ReceivedWellTyped | src/Conversion.cpp:1941-1958 | What is received is a value of the type. |
| RoundTrip.ReceivedSame | src/Conversion.cpp:1941-2393 | What is received has the same payloads under the same union cases. |
| RoundTrip.RoundTrip | src/Conversion.cpp:910-1127 | Main theorem: a value of any supported type, written into any buffer and read into a fresh target, comes back well-typed with every union case and payload, through any aliases. |
| RoundTrip.ExactRoundTrip | src/Conversion.cpp:1941-2393 | It is the identical value exactly when every union has the discriminator its case is selected with. |
| RoundTrip.ReceivedTwice | src/Conversion.cpp:1941-2393 | A second crossing changes nothing more. |
| History.WriteForgets | src/Conversion.cpp:929-1127 | Two buffers with different older data hold the same visible data once the same message was written into them. |
| History.HistoryIndependent | src/Publisher.cpp:148-160 | After any sequence of messages the visible data of the buffer is that of the last message in a fresh buffer. |
| History.VisibleDecidesRead | src/Conversion.cpp:1971-2393 | The reader's result depends on visible data only: members that a union does not select are never read. |
| Correspondence.CellWritten | src/Conversion.cpp:423-560 | The cell at the row-major offset of an index vector is the element that the vector leads to, one nested array after the other. |
| Correspondence.WrittenHolds | src/Conversion.cpp:910-1127 | Whatever the buffer held before, it holds the value part by part once that was written: element i of a sequence in slot i, pair i in slots 2i and 2i+1, array elements at their offsets, fields in order, numbers, characters and enumerators as they are (a signed byte modulo 256), a union's discriminator cast to uint64 and its payload in the member the discriminator selects. |
| Correspondence.OneLook | src/Conversion.cpp:910-1127 | Data that holds a value differs from other data that does only in members no union selects. |
| Correspondence.HeldIsReceived | src/Conversion.cpp:1941-2393 | Data of the type, written by whomever, that holds a value is read as what is received of it. |
| Correspondence.CellRead | src/Conversion.cpp:1718-1939 | The element an index vector leads to is read from the cell at its row-major offset. |
| Correspondence.ReadIsHeld | src/Conversion.cpp:1971-2393 | Any data of the type holds, part by part, the value it is read as; a union gets the discriminator its selected case has, or stays as created. |
| Correspondence.ReadExactly | src/Conversion.cpp:1971-2393 | Data is read as a value exactly when it holds it: there is no other such value. |
| Correspondence.FieldByName | src/Conversion.cpp:940-1005 | The part that holds a member of a struct has the id that the type built gives to the name of the member. |
| Correspondence.CaseByName | src/Conversion.cpp:1008-1127 | The member that data sent selects has the name of the case the discriminator selects, and holds the payload. |
| Correspondence.DefaultIsInitial | src/Conversion.cpp:1941-1958 | A target starts out with zeros, empty collections, the first enumerator and the first case. |
| DynamicDataBuffer.DynamicData.InsertMapData | src/Conversion.cpp:683-735 | Assumed contract: a pair is appended unless the bound is reached or the key is there; nothing changes on refusal. |
| DynamicDataBuffer.DynamicData.SetNumber | src/Conversion.cpp:355-421 | Assumed contract: an accessor stores its number in the addressed slot exactly when the kind there is its own; otherwise nothing changes. |
| ToDds.SetPrimitiveData | src/Conversion.cpp:355-421 | The accessor chosen for each kind succeeds on the part the compiler made for it and stores what `Write` says, leaving the rest. |
| ToDds.SetArrayData | src/Conversion.cpp:423-560 | The recursive loop over index vectors overwrites exactly the block below its index vector with the elements in row-major order. |
| ToDds.SetArrayItem | src/Conversion.cpp:433-560 | One turn of that loop extends the filled part by the block of one element, in the same buffer when the element is an array. |
| ToDds.SetArrayCell | src/Conversion.cpp:441-560 | A full index vector overwrites the one cell at its row-major offset. |
| ToDds.NextOffset | src/Conversion.cpp:433-436 | Pushing an index moves the offset by whole inner blocks and stays within the array. |
| ToDds.SetSequenceData | src/Conversion.cpp:562-681 | Clears the buffer and inserts and fills one element after the other: element i ends up in slot i and holds the value's element i, whatever was there. |
| ToDds.SetMapData | src/Conversion.cpp:683-908 | Clears the buffer and inserts the pairs in order, each with a key not there yet; the result is `Write`. |
| ToDds.PairStep | src/Conversion.cpp:683-735 | The next pair extends the slots at ids 2i and 2i+1 and has a key that is not among them. |
| ToDds.SetComplexData | src/Conversion.cpp:514-560 | The dispatch on the kind behind the aliases computes `Write` of the declared type. |
| ToDds.SetMember | src/Conversion.cpp:940-1005 | A member is set in place or through a loan, to what `Write` says given its older data; the other members stay. |
| ToDds.SetStructData | src/Conversion.cpp:929-1006 | The loop over members, looked up by name, turns the older data of the buffer into `Write`. |
| ToDds.SetUnionDiscriminator | src/Conversion.cpp:1014-1058 | The word written selects the member of the active case and leaves the data of all members. |
| ToDds.SetUnionData | src/Conversion.cpp:1008-1127 | Discriminator, then the member of the active case: the result is `Write`; other members keep their data. |
| ToDds.XTypesToFastDds | src/Conversion.cpp:910-927 | A struct or union, also one behind an alias, is converted into the buffer it is given, which then holds it part by part; any other root is refused and the buffer left alone. |
| FromDds.GetElement | src/Conversion.cpp:1129-1326 | Elements, keys and values are fetched with an accessor that fits the stored kind and give `Read`. |
| FromDds.GetArrayData | src/Conversion.cpp:1718-1939 | The recursive loop over index vectors reads exactly the block below its index vector. |
| FromDds.ElementOfBlock | src/Conversion.cpp:1728-1733 | The cells of an element, within the block of its array, are those at the offset of its own index vector. |
| FromDds.BlockOfArray | src/Conversion.cpp:1735-1760 | A nested array is read from the cells below its own index vector. |
| FromDds.CellOfElement | src/Conversion.cpp:1735-1760 | Any other element is read from the one cell that its index vector addresses. |
| FromDds.GetSequenceData | src/Conversion.cpp:1129-1326 | Reads the elements in order: element i is the one that slot i holds. |
| FromDds.GetMapData | src/Conversion.cpp:1328-1716 | Reads key 2i and value 2i+1 and enters the pair; no entry replaces an earlier one, so the result is `Read`. |
| FromDds.NextKeyIsNew | src/Conversion.cpp:1328-1716 | Two keys of a stored map stay different when read. |
| FromDds.GetStructMember | src/Conversion.cpp:1990-2189 | A member is read by the kind of its descriptor; a byte becomes a signed or unsigned number by the type of the member, behind its aliases. |
| FromDds.GetStructData | src/Conversion.cpp:1971-2192 | Starting from a fresh target, the loop over member ids gives `Read`. |
| FromDds.GetUnionData | src/Conversion.cpp:2194-2393 | The case of the selected member becomes active, with its payload; with none selected the target stays as created. |
| FromDds.FastDdsToXTypes | src/Conversion.cpp:1941-1958 | A struct or union buffer, whoever filled it, is read as the value it holds part by part, within the bounds of the type, also for a target declared by an alias; any other root is refused and the target left as created. |
| Publishing.Publisher.Publish | src/Publisher.cpp:148-170 | Every sample the writer accepts holds its own message and reads back as what is received of it, and the one buffer shows the last message as a fresh buffer would. |
| Publishing.OneMoreCarried | src/Publisher.cpp:148-170 | A message written over any older data adds a sample that holds it and carries it. |
| Paths.MembersByName | src/Conversion.cpp:2637 | A member is found under its own name, with the type it is declared with, and nothing under a name that no member has. |
| Paths.MemberOfItsName | src/Conversion.cpp:2637 | With distinct names, every member of a struct or union is the one found under its name. |
| Paths.WalkExactly | src/Conversion.cpp:2631-2639 | A path leads to a type exactly when members called so, one after the other, lead to it. |
| Paths.WalkSnoc | src/Conversion.cpp:2635-2638 | A path with one more member leads to that member of where the path led. |
| Paths.TokensJoin | src/Conversion.cpp:2648-2656 | Splitting a printed list of names gives the list back, if the last one is not empty. |
| Paths.ResolveDiscriminatorType | src/Conversion.cpp:2616-2642 | The find/substr loop terminates with the type that members called by the names after the first dot lead to, or with the exception of a failed lookup. |
| Paths.LeadsIsResolved | src/Conversion.cpp:2616-2642 | Wherever members called so lead, at any depth, the type walker goes. |
| Paths.MemberIsResolved | src/Conversion.cpp:2616-2642 | With distinct names, the path of a root and a member leads to the type of that very member. |
| Paths.ResolveExactly | src/Conversion.cpp:2616-2642 | The type walker accepts a path exactly when it is valid or its longest valid part ends in something without members, and ends where that part does. |
| Paths.AccessReaches | src/Conversion.cpp:2662-2675 | The data walker succeeds exactly on the paths that the data has, aliases seen through, with data of the type there. |
| Paths.AccessFollows | src/Conversion.cpp:2662-2675 | Through active union cases the data walker finds the live value and changes nothing. |
| Paths.DataByName | src/Conversion.cpp:2673 | A member of data is looked up by name: the field at the position of that name, the payload of the active case, a default of a case selected anew; the exception comes exactly when no member is called so. |
| Paths.FollowExactly | src/Conversion.cpp:2662-2675 | Following names is to be led by members called so that are present, one in the other. |
| Paths.AccessLeads | src/Conversion.cpp:2644-2675 | The data walker finds the value that the names of a dotted path lead to. |
| Paths.MemberIsAccessed | src/Conversion.cpp:2644-2675 | The path of a root and a member gives that very field, the payload of the active case, or a default of an inactive one. |
| Paths.DefaultReaches | src/Conversion.cpp:2662-2675 | Below a case selected anew there are the defaults of the types that the names lead to. |
| Paths.ValidReaches | src/Conversion.cpp:2662-2675 | A path valid in the type leads to data of the type it leads to. |
| Paths.SameTokens | src/Conversion.cpp:2648-2656 | Both walkers see the same tokens unless the path ends in a dot. |
| Paths.NamesAgree | src/Conversion.cpp:2616-2675 | The walkers agree, on acceptance and on the type reached, exactly when the path is valid or its longest valid part ends in an aggregation. |
| Paths.WalkersAgree | src/Conversion.cpp:2616-2675 | The same for dotted paths as they are written; on a valid path both succeed. |
| Paths.WalkersDisagree | src/Conversion.cpp:2633-2638 | On a concrete path that goes on past a scalar member the type walker succeeds and the data walker fails. |
| Paths.AliasDividesWalkers | src/Conversion.cpp:2634-2638 | A concrete path through a member declared by an alias of a struct: the type walker stays at the alias, the data walker goes on. |
| Navigation.NavigationTree.Child | src/Conversion.cpp:160-178 | The child of a name is found or made, with the key, parent link and type name the type definition gives; all other nodes stay. |
| Navigation.NavigationTree.FillMemberNode | src/Conversion.cpp:195-253 | Adds exactly the places along the longest valid part of the path below the node; earlier nodes survive. |
| Navigation.NavigationTree.FillBelowRoot | src/Conversion.cpp:132-188 | The part after the type name: refused, with nothing changed, exactly when it starts with no member of the type. |
| Navigation.NavigationTree.FillRootNode | src/Conversion.cpp:108-193 | Adds exactly the longest valid prefix of the path, and names the root exactly when the path is accepted. |
| Navigation.NavigationTree.AddMember | src/Client.cpp:307-322 | After any sequence of calls, valid or not, the places in the tree are exactly the prefix closures of the longest valid prefixes, and the roots with a name exactly those of accepted paths; nodes keep their place, links and names. |
| Navigation.OnePlaceEach | src/Conversion.cpp:108-253 | No two nodes of the tree stand in the same place. |
| Navigation.NodeAdded | src/Conversion.cpp:171-178 | A new child keeps the whole tree sound: keys, parent links and type names match the types. |
| Paths.LongestValidWhole | src/Conversion.cpp:195-253 | A path valid in the type is entered whole. |
| Navigation.NavigationTree.GetPathPrintsPlace | src/Conversion.cpp:48-57 | The path printed is the root's type name and the member names down to the node, dotted. |
| Navigation.NavigationTree.AddedPathIsPrinted | src/Conversion.cpp:48-57 | There is a node for each valid path added, and it prints that very path. |
| Discriminator.ChildOnTheWay | src/Conversion.cpp:290-313 | Whatever stands below a node stands below the child of the first name on the way. |
| Discriminator.CandidateBelow | src/Conversion.cpp:290-313 | Live data of a listed type below a node is found below that child, through an active case in a union. |
| Discriminator.Search | src/Conversion.cpp:277-319 | Returns a node exactly when some node reached through active cases stands for data of a listed type; none on the way to the node returned has a listed type. |
| Discriminator.SearchMember | src/Conversion.cpp:293-312 | Below one member, the child is searched with the member's data: what is found is found for the node itself, and nothing found means no candidate starts with that member. |
| Discriminator.GetDiscriminator | src/Conversion.cpp:255-275 | The search from the root of the message's type; the type itself when there is no such root. |
| Discriminator.LiveType | src/Conversion.cpp:282-313 | Live data a node stands for is of the type of the node, behind its aliases. |
| Discriminator.FoundByTrueName | src/Conversion.cpp:282-286 | A node can be found exactly when its data is live and its type, behind aliases, is listed. |
| Discriminator.LivePathsAreFound | src/Conversion.cpp:255-319 | The search has something to find exactly when some path added for the type is live: the message itself, or data on the way along the longest valid part of the path, is there and of a listed type. |
| Discriminator.FoundIsReached | src/Conversion.cpp:48-57 | The path of a node found, followed in the message, lands on the live data that the node stands for, of a listed type. |
| Discriminator.WholeIsReached | src/Client.cpp:587-600 | For a type without a root the path lands on the whole message. |
| Discriminator.FoundIsNamed | src/Conversion.cpp:180-190 | The type name of a node, other than a root that never got one, is that of the type it stands for. |
| Routing.ConfiguredKeeps | src/Client.cpp:324-435 | After any configurations, also refused or failed midway: each path leads to the name it is stored under, in the reply type if the name was last taken as a reply and otherwise in the request type; each reply name has a path, each request name a callback. |
| Routing.ConfigEnters | src/Client.cpp:324-435 | One configuration enters exactly what its deciding part says (the remapped one unless nothing is in it): the callback, name, path and tree path of its request type, the path of its reply type, and the pairing of the two. |
| Routing.ConfigResult | src/Client.cpp:382-434 | It returns true exactly when its request path is there and leads somewhere and the reply type, if any, is paired with it; it throws exactly when a path that is looked up leads nowhere. |
| Routing.CallbackFor | src/Client.cpp:324-435 | After any configurations a request type has a callback exactly when the deciding part of one of them was for it. |
| Routing.LastDecides | src/Client.cpp:353-361 | It has the callback and the path of the last one. |
| Routing.AddedByConfigs | src/Client.cpp:379 | The paths in the tree are exactly those of the deciding parts of all configurations. |
| Routing.ReplyHasItsPath | src/Client.cpp:446-459 | The path chosen for a response leads to the configured reply type in the reply type exactly when that type was last taken as a reply, or the path last taken for it as a request leads to it there too. |
| Routing.ReplyHasItsPlace | src/Client.cpp:446-463 | If it was last taken as a reply and the path is valid, the data walker reaches data of that type in the reply. |
| Routing.SharedName | src/Client.cpp:353-354 | For any two types: once a request type that is also its own reply type is configured again as a request, the response gets the request's path. |
| Routing.SharedNameMisplaces | src/Client.cpp:353-354 | Two concrete configurations that share a type between request and reply: the response's path does not exist in the reply type. |
| Routing.ReplyIsWhole | src/Client.cpp:446-463 | Without a configured reply type the response takes up the whole reply. |
| Routing.NamesCoincide | src/Client.cpp:592-602 | The name of the node found and that of the message passed on coincide exactly when the node has a name and its type is declared by no alias of another name. |
| Routing.RootHasName | src/Conversion.cpp:126-191 | A root has its name exactly when some path added for it starts with that name and goes on, if at all, with a member. |
| Routing.ConfiguredIsFound | src/Client.cpp:587-588 | A valid path to live data is found if the type of that data, behind its aliases, is itself listed. |
| Requests.AfterConfigurations | src/Client.cpp:587-592 | After any sequence of configurations the client follows a null pointer exactly when paths were added for the type of the request and none of them is live in it. |
| Requests.OneMember | src/Client.cpp:587-592 | From that: with one path, to a member, exactly when the member's case is not active or the member is declared by an alias of another name. |
| Requests.OtherCaseComesIn | src/Client.cpp:587-592 | A concrete union request whose active case is not the configured one ends so. |
| Requests.AliasComesIn | src/Client.cpp:587-592 | A concrete request whose configured member is declared by an alias ends so. |
| Requests.AliasedCase | src/Client.cpp:592-607 | For any union with a case declared by an alias of the type of another, both configured: a request with the first is noted under the alias and passed to the callback of the second. |
| Requests.AliasIsMisrouted | src/Client.cpp:592-607 | A concrete such union and request: noted under "L", called for "A". |
| Requests.MisspeltRoot | src/Client.cpp:592-607 | For any request type configured by a word that is not its name: a request is passed to its callback and noted under no name. |
| Requests.RootIsMisspelt | src/Client.cpp:592-607 | A concrete such type, "Req" configured as "Foo". |
| Routing.Client.AddRequestConfig | src/Client.cpp:332-381 | A request path whose lookup fails changes nothing; any other enters its path, name and callback under the stripped type name, and goes into the tree. |
| Routing.Client.AddReplyConfig | src/Client.cpp:332-381 | A reply path is entered under its type name and paired with the request; without a request it is refused after its path was entered. |
| Routing.Client.AddConfig | src/Client.cpp:324-435 | The tables gain what the deciding part of the configuration says; they are those of all configurations so far, in order, and the result is that of the last one; notes stay in order while no request is in. |
| Routing.Client.Choose | src/Client.cpp:587-600 | The part of a request passed on is live data of a listed type; there is none exactly when paths were added for the type of the request and none is live; the node's name is that of its declared type, or none for a root that never got one. |
| Routing.Client.Receive | src/Client.cpp:572-607 | The sample is noted by the node's name, earlier notes stay, and the callback is looked up by the message's name; the client follows a null pointer exactly when no path added for the type is live. |
| Routing.Client.ReceiveResponse | src/Client.cpp:437-463 | The response goes to the path configured for the type of the request it answers, or to the whole reply; the notes of the other samples stay in order. |
| ServerSide.LessIsStrictTotal | src/Server.hpp:239-259 | The comparator is a strict total order: two identities are equivalent exactly when they are equal. |
| Serving.Server.CallService | src/Server.cpp:427-486 | Under a new handle the maps go on fitting the calls made, the requests written and the answers given; a failed write leaves nothing pending. |
| Serving.Server.LookUp | src/Server.cpp:578-591 | A reply is matched to the call whose request it answers exactly when that was written and not answered yet. |
| Serving.Server.Receive | src/Server.cpp:602-630 | The first reply to a call is handed to the client that made it, at the path of its reply type; a later one is not handed over. |
| Correlation.StepKeeps | src/Server.cpp:427-642 | Every step of the protocol keeps the invariant that ties the three maps, the calls, the threads and the deliveries together. |
| Correlation.RunKeeps | src/Server.cpp:427-642 | The invariant holds in every state of every run. |
| Correlation.PendingAre | src/Server.cpp:578-591 | While no write is going on, the server knows exactly the requests written and not yet answered. |
| Correlation.AtMostOnce | src/Server.cpp:573-630 | In every interleaving each call is answered at most once, to the client that made it, with a reply to its own request, read at the path of its reply type. |
| Correlation.NoReplyLost | src/Server.cpp:452-477 | A reception thread gives a reply up exactly when it answers no request written so far or one already answered, even if the write has not returned. |
| Correlation.FoundIsAnswered | src/Server.cpp:602-630 | After the second critical section of a thread that found its call, the call has been answered. |
| Correlation.OneCondition | src/Server.cpp:452-477 | A written request is in exactly one condition: being recorded, pending, or answered. |
| Correlation.EndToEnd | src/Client.cpp:437-470 | Each reply a client writes carries a reply to the request the server wrote for it, read at the server's path for the name of the message and placed at the client's path for the name of the node; at most one for a request. |
| Replies.OneReplyEach | src/Client.cpp:437-484 | In every run a successful send writes exactly one reply: that of its delivery, for the request of its call, read and placed at the paths configured, with the body of a reply to the request written for it. No other step writes any, a failed send included. |
| Replies.WrittenAreSent | src/Client.cpp:464-484 | The replies written in a run are those of its successful sends, in that order. |
| Replies.PendingCanBeAnswered | src/Server.cpp:573-630 | From any reachable state with no write going on, whatever else is, a reply to any request not answered so far can go its way through server and client, and is written. |
| Replies.RequestCanBeAnswered | src/Server.cpp:427-630 | From any such state a new request can be taken in, forwarded, answered and replied to, at the paths the two configurations say. |
| Replies.SomeReplyIsWritten | src/Client.cpp:437-484 | So there are runs, over any bridge and for any request, in which its reply is written. |
| Forwarding.ReplyIsPlaced | src/Client.cpp:446-463 | In every run the body of a written reply is placed at data of the reply type configured for the node found in its request. |
| Forwarding.ReadAndPlaced | src/Client.cpp:592-607 | The body is read for the type it is placed for exactly when the node found has a name and its type is declared by no alias of another name. |
| Reception.ThreadTable.Sweep | src/Subscriber.cpp:272-296 | One round of the cleaner's loops: the ids found in the table are joined in order, leave it, and leave the list of finished ones. |
| Reception.SweepTakesAll | src/Subscriber.cpp:272-296 | When the finished ids are distinct and in the table, a round joins them all and empties the list. |
| Reception.StepKeeps | src/Subscriber.cpp:174-312 | Every step keeps the invariant on the mutex, the table, the finished list and the joins. |
| Reception.RunKeeps | src/Subscriber.cpp:174-312 | The invariant holds in every state of every run. |
| Reception.Baton | src/Subscriber.cpp:174-239 | The data mutex is released as often as it is taken but for its present owner, no two threads own it, and each thread converted its own sample. |
| Reception.ConvertsOwnSample | src/Server.cpp:536-600 | A thread that converts owns the mutex, reads the sample it was started for and releases the mutex. |
| Reception.SweepJoinsPosted | src/Subscriber.cpp:272-296 | The cleaner's loop joins exactly the threads that have posted and were not joined before. |
| Reception.JoinedOnce | src/Subscriber.cpp:257-312 | No thread is joined twice or before it ended, even if ids are used again; when the cleaner returns all have been joined. |
| Reception.FinishedAreKnown | src/Subscriber.cpp:199-203 | Finished ids are distinct and in the table. |
| Reception.SpawnIsEntered | src/Subscriber.cpp:228-229 | A new thread's id is free in the table, so the thread is always entered. |
| Reception.NothingAfterStop | src/Subscriber.cpp:205-216 | After stop no thread is started. |
| Reception.FinalLoopReturns | src/Client.cpp:666-678 | From the last loop the cleaner can still return exactly when no thread has converted without having posted; where threads have no way to give up, exactly when every thread has ended. |
| Reception.FinalLoopWaits | src/Client.cpp:666-678 | A thread that has converted and not posted when the last loop begins never posts, and the cleaner never returns. |
| Reception.StuckRun | src/Client.cpp:666-678 | A concrete run into the last loop with a thread that has converted and not posted. |
| Participation.DissociateIsRight | src/Participant.cpp:306-323 | The topic is reported free exactly when no other entity uses it, but for an entity that does not use a topic with one user. |
| Participation.Participant.AssociateTopicToEntity | src/Participant.cpp:287-304 | The topic's users gain the entity, those of other topics stay, and no topic is left without users. |
| Participation.Participant.DissociateTopicFromEntity | src/Participant.cpp:306-323 | The entity no longer uses the topic, whose deletion is asked for exactly when nobody else does; no topic is left without users. |
| Participation.Participant.RegisterDynamicType | src/Participant.cpp:148-235 | The first type given to a topic and the first definition under a name are kept, even when DDS then refuses the type and the call throws; every topic has a known type. |
| Participation.Participant.CreateDynamicData | src/Participant.cpp:237-261 | A fresh buffer of the topic's type, exactly when the topic was registered. |
| Participation.RunKeeps | src/Participant.cpp:287-323 | The invariant on topics, entities and deletions holds in every state of every run. |
| Participation.TopicLives | src/Publisher.cpp:131-146 | In any run of entities opening and closing once, a topic is in the table with exactly its open entities, never none, or was deleted once and is used by nobody. |
| Participation.DeletedByLast | src/Publisher.cpp:131-146 | Closing an entity deletes the topic exactly when no other open entity uses it. |

## Left out

- Loans: a loaned buffer is a copy that is put back when returned; what the lender shows while a loan
  is out, and the manager of loans in Fast DDS, are not captured.
- `Paths.Name`: the names xTypes makes up for collections are stand-ins.
- `XTypes.Supported`: arrays with an alias of an array as content, signed 8-bit integers in unions and
  maps (read back as unsigned at src/Conversion.cpp:2224-2229), complex map keys and bitsets are not
  covered by the conversion theorems.
- `Paths.WalkersAgree`: is about paths that are not empty and do not end in a dot, which the two
  walkers split into different tokens.
- `Compiler.GetBuilder`: the names of enumerators, and type names inside a type, are not part of the Fast DDS types here.
- Floats and wide characters are opaque payloads, and strings sequences of codes.
- Descriptor lookups that fail: the reader's loop at src/Conversion.cpp:1983-2189 only goes on when a
  lookup succeeds, and in the model it always does.
- Converter failures: for supported types none of the accessors fails, so a converter refuses only a
  root that is no struct or union; conversions that fail for other reasons, and their log lines, are left out.
- `Discriminator.Search`: children are tried in any order, a superset of the order of the map; which
  of several live nodes is found is not determined.
- `Routing.Client.Receive`: needs a request type whose name has no dot; the conversion of the request
  and the identity handed on with the callback are not part of it.
- `Routing.Client.ReceiveResponse`: its notes are in order as long as the client is configured before
  requests come in; the conversion and the write of the reply are steps of `Correlation`.
- `Serving.Server.CallService`: expects a new handle and a new identity for each call, as
  `Correlation` does.
- `Server::add_config` and the placing of a request at its configured path before it is written.
- Type names that start with "::" in the server's routing, which are stripped for one lookup and not
  for the other (src/Server.cpp:434-443 against 472).
- `Correlation.EndToEnd`: bodies are opaque, and a reply is taken with its identity as one value (that
  a thread converts the sample it was started for is `Reception.ConvertsOwnSample`); the two names of
  an arriving request stand for those that `Routing.Client.Choose` finds; the server's mutex is free while a client handles a response, which
  allows more interleavings than the code; each request arrives once at its client.
- The entry of `callhandle_client_` left behind by a failed write: claims are about written requests.
- The count of matched endpoints that opens the gate on the server's and client's mutex: runs begin
  after it has opened.
- Liveness: that threads get to run, and that the cleaner returns.
- The mutex around the participant's topic table: dissociation does not take it
  (src/Participant.cpp:310), and entities are closed one after the other here.
- `NavigationNode::get_type`, which nothing calls.
- Entities, QoS, transports, XML profiles, YAML and logging; a configuration is a parsed record.
