# Verified models of the compiler's serializer, tables, analyses and small libraries

This project models the algorithmically hard parts of the repository and proves what they
are for. It has seven independent groups of modules.

**The incremental-compilation serializer** (`compiler/ast2nif.edl`, with ids from
`compiler/ast.edl` and `compiler/itemids.edl`).

* `NifTokens`, `NifParser`: the token list, the balanced trees in it, and the cursor that skips
  and reads them.
* `Decimal`, `NifNames`: the names of symbols and types and their readers.
* `NifGraph`, `NifLoader`, `NifAssembly`, `NifDefinitions`, `NifInventory`, `NifRows`,
  `NifWriter`, `NifModule`: the writer over a cyclic graph of nodes, symbols and types, and the
  loader.
* `NifRoundTrip`: what comes back of a node and of a symbol, son by son and part by part.
* `NifCookie`, `NifInterface`, `NifCycles`: the hash input of a module's interface, and what
  circles among type definitions do to it. `NifSensitivity`, `NifRenumbering`: what the hash
  input tells of a module, and which numbers it does not see.
* `NifWritten`: what follows for the files that the writer puts out: the hash input of their
  interface, their index, and reading back from tokens.
* `NifLazy`, `NifLazyDefinitions`: routine bodies that are loaded on demand, in trees and in
  whole definitions of symbols.
* `NifIds`, `NifNaming`: item counters of the loader and the backend, the id generators, and
  why the names that they lead to are all different.

**Open-addressing tables** (`compiler/astalgo.edl`, `compiler/astdef.edl`): `ProbeSequence`,
`ProbeChains`, `IdTables`.

**The line editor** (`lib/wrappers/linenoise/linenoise.c`): `LineHistory`, `LineEditor`.

**Alias analyses** (`compiler/aliases.edl`, `compiler/aliasanalysis.edl`): `TypeAliases`,
`Locations`, `PathAliases`.

**DrNim's versioned facts** (`analyzer/drnim.edl`): `DrnimFacts`.

**The two-mutex lock** (`lib/genode_cpp/syslocks.h`): `SysLocks`. **Byte-array sets**
(`compiler/bitsets.edl`): `BitSets`. `Options`, `Integers` and `SetSizes` hold
what several modules share.

## How to read the serializer's contracts

The writer is a class whose methods append to `dest`. Every method is proved against the
same few predicates:

* `Wrote(g, env, s0, s1, ts)`: between the two states exactly the tokens of the balanced trees
  `ts` were appended, and `Delta` and `Inventory` hold of them.
* `Delta(g, env, w0, w1, toks)`: of every symbol and type that this module has to define,
  `toks` contains exactly one definition if it is new in `w1`, and none otherwise; the
  definition reads back as the entity; and every reference in `toks` to such an entity is to
  one in `w1`. So no reference dangles.
* `Inventory(g, w0, w1, ts)`: the type definitions inside `ts` are those of the types that are
  new in `w1`, in the order in which they were marked, and each refers only to types that were
  marked before it or that it defines itself (`InOrder`); the symbol definitions have all their
  parts, and those of this module's symbols the symbol's type (`SymsListed`); and no tree has a
  tag of the file's own sections (`NoMarks`).
* `Adds`, `AddsBoth`, `Gathers`: the same for the sections of a file, with the balanced trees
  that a step appends to them. `WellWritten(g, w0, w1, file)`: the file is one balanced tree
  with such an inventory.
* `FieldsFound`, `Covered`, `FieldsInside`: the same for the fields of record lists, which have
  a dedup set of their own for each record list.
* `NodeReads`, `SymReads`, `TypeReads`: the loader (functions of `NifLoader`, written after the
  loader's code, not after the writer's) reads the tree back as what was written, up to the
  normalisations of the code, and fails exactly if an `nkNone` was written.
* `Shrinks` and the `decreases` clauses: the lexicographic measure of unwritten entities, fields
  missing in the record list, and tree size, which makes the recursion over cyclic graphs end.

The normalisations are listed at `NifLoader.Matches`: the comment flag is dropped everywhere,
all flags are dropped on untyped empty nodes and on symbol nodes, the parameter list of a
routine with a type becomes an empty node, and symbols and types are identified by name.

Where the code does not meet what one would expect of it, the model keeps the code and states
the exact condition:

* A node `nkNone` is written without flags, and the loader demands flags; loading fails exactly
  for trees that contain one (`Loadable`).
* Memoised type expansion gives each type one text, wherever the expansion started, if and only
  if no type refers to itself through another type, if and only if the types can be ranked
  (`OrderFreeExactly`, for a digest without collisions). On every circle, renaming a type of it
  changes that type's text (`CircleLeaksName`); `CyclesLeakNames` is an input, with definitions
  that the writer does not put out. The files that it puts out have no circles, because a type
  is marked before its definition is written in place (`WrittenIsRanked`), so for them nothing
  is assumed.
* A reload of a module resets its counters: the next item repeats an earlier one if and only if
  one had been drawn (`ReloadRepeats`), and `ModuleId` says exactly when a load keeps items
  distinct. An item that a backend generator draws before its module is loaded is handed out
  again afterwards if and only if it lies above what the module's file uses and there are enough
  draws (`EarlySym`, `EarlyType`; an input in `EarlyMintRepeats`). The comment at
  `compiler/ast2nif.edl:1986-1988` says that such early draws happen only in processes that
  never load the module.
* Deferred bodies of a kind without sons lose their payload when they are grafted; lazy loading
  gives the eager tree exactly if there are none (`LazyForces` for trees, `LoadAndLook` for
  definitions; a routine whose body is a literal in `LiteralBodyLost`).
* Without the scan for local definitions, a reference behind a deferred body loses its type
  (`ScanMatters`). The input has a field's definition inside a routine body; the writer puts
  fields only into type definitions, which the scan skips.
* `toId` collides for items that lie as many strides apart as their modules lie the other way
  round (`ToIdTellsApart`).
* The stub of a symbol's name has the symbol's kind and identifier if and only if the identifier
  of a symbol without a marker does not end in one (`SymNameReadsBack`). An identifier that ends
  in the marker of packages takes a package's name (`PackageNameTaken`), and one that starts like
  the name of a type takes a type's (`TypeNameTaken`). No identifier of the language does, nor any
  that a template expansion makes of one (`TemplateIdents`).
* DrNim's facts are sound for all programs over some variables if and only if none of these is
  called like a version of another (`SoundExactly`, for operations that can compare;
  `VersionNameClashes` is an input). Names without a backtick, and those that a template
  expansion makes, are called like no version (`TemplateNames`, `UnversionedIsNoVersion`).
* A local symbol's name reads back exactly if its identifier is not empty; a global symbol's,
  whose module suffix is not empty and has no dot, exactly if the suffix does not start with a
  digit (`SuffixOk`).
* The line editor: going to an older line and back restores the text exactly if it is shorter
  than the usable buffer, since an entry is cut one character earlier than the line.
* The lock: an acquire that holds the first mutex while another thread owns the lock never ends
  (`StuckForever`); it ends exactly if the second mutex is free (`AcquireEndsIfFree`). Two
  threads that acquire one after the other get there from every initial state
  (`ContentionSticks`).

## Model

| member | source | states |
|---|---|---|
| NifModule.ModuleWriter.WriteModule | compiler/ast2nif.edl:1629-1800 | the whole file: its tokens parse back into exactly the expected tree, with the replayed actions, the registrations, the header and the lazily loaded part in their places; every symbol and type of this module that the run reaches is defined exactly once, each definition reads back as the entity, no reference to such an entity dangles; the replayed actions, top-level statements and declarations read back in order; all registered symbols and all offered types of the module are among what is defined; type definitions refer only to types marked before them or inside them |
| NifModule.FileReads | compiler/ast2nif.edl:1770-1800 | the sections put one after the other parse back into one tree, whose definitions are those of the sections |
| NifModule.ModuleWriter.WriteTopLevel | compiler/ast2nif.edl:1185-1209 | a top-level statement goes to the header or to the implementation by its kind, section by section in order, as balanced trees, and each reads back as the statement or the declarations it stands for |
| NifModule.StatementsGo | compiler/ast2nif.edl:1185-1209 | routines, type sections, comments, mixins, binds and usings go below as they stand, constants below and variables above as what they declare, and all other statements above as they stand |
| NifModule.ModuleWriter.WriteGlobal | compiler/ast2nif.edl:1162-1178 | what is written for a declaration are balanced trees for the symbols and tuples it declares, through postfixes and pragmas, in order, and they read back as those |
| NifModule.NamesDeclared | compiler/ast2nif.edl:1162-1178 | a declaration declares its names, without its type and its value |
| NifModule.MarkedDeclared | compiler/ast2nif.edl:1162-1178 | an export mark and a pragma leave the declared name what it is, and a tuple is declared as it stands |
| NifModule.ModuleWriter.WriteGlobals | compiler/ast2nif.edl:1180-1183 | a section of constants or variables becomes one balanced tree with its head and the symbols that all its sons declare |
| NifModule.ModuleWriter.WriteReplay | compiler/ast2nif.edl:1648-1653 | the replayed actions become balanced trees that read back in order; without actions nothing is written |
| NifModule.ModuleWriter.Registrations | compiler/ast2nif.edl:1216-1258 | the log entries in order, each with its tag, key and the symbol's name; an entry for a generic instance writes nothing |
| NifModule.OpsDelta | compiler/ast2nif.edl:1216-1258 | the registrations define nothing and refer to nothing that is not written |
| NifModule.ModuleWriter.WriteOffered | compiler/ast2nif.edl:1752-1768 | a type of this module that an offered instance needs is written afterwards, even if nothing else reaches it |
| NifModule.ModuleWriter.WriteRegistered | compiler/ast2nif.edl:1790-1798 | a registered symbol is written afterwards, defined exactly if it was not written before |
| NifModule.SectionsJoin | compiler/ast2nif.edl:1770-1788 | sections that were filled in turns by one writer and are then put one after the other still define each entity once and close over their references |
| NifWriter.Writer.WriteNode | compiler/ast2nif.edl:999-1160 | for every node over every cyclic graph the run ends, and writes one balanced tree that defines each newly reached entity once, leaves no reference dangling, and reads back as the node |
| NifWriter.Writer.WriteInner | compiler/ast2nif.edl:1157-1160 | a node with sons reads back with its kind, flags, type and every son, except the skipped parameter list |
| NifWriter.Writer.WriteRoutine | compiler/ast2nif.edl:1082-1121 | a routine is written as its symbol's ast, and reads back with the parameter list replaced by an empty node exactly if the routine's symbol has an ast and a type |
| NifWriter.Writer.WriteLambda | compiler/ast2nif.edl:1122-1132 | lambda and do expressions read back in full |
| NifWriter.Writer.WriteSon | compiler/ast2nif.edl:1099-1120 | each son reads back as itself, the skipped parameter list as an empty node |
| NifWriter.Writer.WriteLeaf | compiler/ast2nif.edl:1021-1044 | identifiers, literals and nil read back with flags, type and payload, unsigned literals through their 64-bit pattern |
| NifWriter.Writer.WriteHead | compiler/ast2nif.edl:802-814 | flags and type read back, the flags without the comment flag |
| NifWriter.Writer.WriteSymNode | compiler/ast2nif.edl:746-800 | a symbol node defines the symbol if it is new and refers to it otherwise; it reads back with the symbol's name and the node's own type, also where that differs from the symbol's; an untyped node of a field comes back without a type where it defines the field, and with the field's type where it refers to it |
| NifWriter.Writer.WriteHiddenDef | compiler/ast2nif.edl:772-780 | a definition behind the node's type: the type that is written before the definition may itself reach the symbol, which is then only referred to |
| NifWriter.Writer.WriteHiddenUse | compiler/ast2nif.edl:781-800 | a reference behind the node's type |
| NifWriter.Writer.ClaimSym | compiler/ast2nif.edl:694-744 | decides where a symbol is defined: this module's symbols and backend symbols once, fields once in each record list, packages once by name; what is not defined here is written already or not this module's |
| NifWriter.Writer.WriteSym | compiler/ast2nif.edl:722-744 | a symbol position holds a dot, a reference or a definition, which reads back as the symbol's name; a symbol of this module is written afterwards |
| NifWriter.Writer.WriteSymDef | compiler/ast2nif.edl:610-692 | a definition reads back with every field of the symbol, with the code's normalisations, or fails exactly if a node in it holds an `nkNone` |
| NifWriter.Writer.WriteSymFront | compiler/ast2nif.edl:631-663 | marker, kind with guard, bit size and alignment, attributes and library read back |
| NifWriter.Writer.WriteKind | compiler/ast2nif.edl:638-646 | the kind reads back, with guard, bit size and alignment exactly for the kinds that have them |
| NifWriter.Writer.WriteSymAttrs | compiler/ast2nif.edl:648-661 | magic, flags, options, offset and position read back; the position of a variable is reset to 0 and that of a module left to the loader |
| NifWriter.Writer.WriteLib | compiler/ast2nif.edl:583-591 | the library annex reads back with its path node, or as none |
| NifWriter.Writer.WriteSymBack | compiler/ast2nif.edl:671-690 | type, owner, ast, location, constraint, origin and body read back |
| NifWriter.Writer.WriteSymOrigin | compiler/ast2nif.edl:677-690 | constraint and generic origin read back; the transformed body is written for routines only |
| NifWriter.Writer.ClaimType | compiler/ast2nif.edl:553-577 | a type of this module is defined at its first use only |
| NifWriter.Writer.WriteType | compiler/ast2nif.edl:553-577 | a type position reads back as the type's name or as none; a type of this module is written afterwards |
| NifWriter.Writer.WriteTypeDef | compiler/ast2nif.edl:499-550 | a type definition reads back with attributes, instance, record list, owner, symbol, location and all elements, and defines the fields of its record list itself |
| NifWriter.Writer.WriteTypeFront | compiler/ast2nif.edl:501-546 | the parts in front of the elements read back |
| NifWriter.Writer.WriteRecord | compiler/ast2nif.edl:524-541 | a record list defines each of its fields in itself, whichever fields the record lists around it have defined, and leaves their set of fields as it was |
| NifWriter.Writer.WriteElements | compiler/ast2nif.edl:547-550 | all element types read back by name, in order |
| NifWriter.SymNodeReads | compiler/ast2nif.edl:2681-2735 | each of the forms that a symbol node is written in loads with the symbol's name and the node's type |
| NifWriter.BySymbolReads | compiler/ast2nif.edl:1071-1073 | a routine that is written as its symbol loads as a node of that symbol |
| NifWriter.DefinedSym | compiler/ast2nif.edl:722-744 | marking a symbol first and defining it later, with anything written in between, still gives one definition |
| NifWriter.DefinedType | compiler/ast2nif.edl:553-577 | the same for types, whose definitions hold their own fields |
| NifDefinitions.DeltaCompose | compiler/ast2nif.edl:999-1160 | writing one thing after another keeps: each new entity defined once, nothing dangling |
| NifDefinitions.DeltaDefine | compiler/ast2nif.edl:722-744 | an entity that is marked before its parts are written is defined once, though its parts may refer back to it |
| NifRows.TrackedDef | compiler/ast2nif.edl:722-744 | trees followed by the definition of a symbol that was marked before them define each new entity once, close over their references and keep the order of the type definitions |
| NifRows.TrackedType | compiler/ast2nif.edl:553-577 | the definition of a type that was marked before it does the same |
| NifInventory.TypeInOrder | compiler/ast2nif.edl:553-577 | a type that is marked before its definition is written in place comes in front of the types its definition defines, and refers only to itself, to types marked before it and to those it defines |
| NifInventory.OrderedAppend | compiler/ast2nif.edl:553-577 | writing one thing after another keeps the order of the type definitions |
| NifInventory.InventorySym | compiler/ast2nif.edl:722-744 | the definition of a marked symbol, behind the trees that its type led to, keeps the order of the type definitions and adds one whole definition |
| NifRows.UntrackedDef | compiler/ast2nif.edl:711-744 | definitions of fields and packages, which other modules define too, disturb no entity of this module |
| NifRows.RecordFields | compiler/ast2nif.edl:524-541 | all fields that occur in a record list are defined in its own tree |
| NifRows.DefFields | compiler/ast2nif.edl:711-744 | a field that is marked before its type and definition are written is defined by that definition |
| NifAssembly.InnerReads | compiler/ast2nif.edl:2868-2892 | a tree put together from a head and sons that read back reads back as the node, and fails exactly if a son does |
| NifAssembly.LeafReads | compiler/ast2nif.edl:2736-2867 | the payload after flags and type loads as the leaf |
| NifAssembly.GlobalSymLoads | compiler/ast2nif.edl:2681-2735 | a reference to or an inline definition of a global symbol loads with the symbol's type |
| NifAssembly.FieldDefLoads | compiler/ast2nif.edl:2344-2360 | an inline definition of a field loads with the type it carries |
| NifAssembly.SymAssembled | compiler/ast2nif.edl:2539-2624 | eighteen parts that read back make a symbol definition that reads back |
| NifAssembly.TypeAssembled | compiler/ast2nif.edl:2458-2500 | a type definition of parts that read back reads back, with all its elements |
| NifAssembly.LibReads | compiler/ast2nif.edl:2523-2537 | kind, flags, name and path of a library load as written |
| NifParser.TreeReadsBack | compiler/ast2nif.edl:1317-1331 | the tokens of a balanced tree, followed by any suffix, read back as the tree and exactly that suffix |
| NifParser.NodeReadsBack | compiler/ast2nif.edl:2681-2894 | from tokens to the node: the tokens of a tree that loads as the node, followed by any suffix, decode to the node and leave exactly the suffix |
| NifWritten.WriteThenRead | compiler/ast2nif.edl:999-1160 | round trip on tokens: what the writer emits for a node, followed by any suffix, decodes to the node, up to the normalisations, and leaves exactly the suffix; it fails exactly for nodes with an `nkNone`; of what is well shaped, nothing but the formal parameters of typed routines is replaced |
| NifRoundTrip.OnlyParamsReplaced | compiler/ast2nif.edl:1101-1120 | of a node whose routines have their formal parameters as the fourth son, every son comes back as itself, except the formal parameters of typed routines, which come back as empty nodes |
| NifRoundTrip.SymTells | compiler/ast2nif.edl:610-692 | a tree has the mark for importers exactly if the symbol is exported, from no generic, no field and no field of a pure enum; two symbols that one tree reads back as agree in every part, except in the position of modules, variables and results, in guard, bit size and alignment of what is neither a variable nor a field, and in the body of what is no routine |
| NifRoundTrip.SymForgetsPosition | compiler/ast2nif.edl:656-661 | a tree of a module, a variable or a result reads back as the symbol whatever its position is |
| NifRoundTrip.SymForgetsGuard | compiler/ast2nif.edl:638-646 | a tree of what is neither a variable nor a field reads back as the symbol whatever its guard, bit size and alignment are |
| NifRoundTrip.SymForgetsBody | compiler/ast2nif.edl:680-690 | a tree of what is no routine reads back as the symbol whatever its transformed body is |
| NifRoundTrip.BitPatterns | compiler/ast2nif.edl:1033-1036 | an unsigned literal is written as the remainder of its bit pattern modulo 2^64, and read back |
| NifTokens.NextTree | compiler/ast2nif.edl:1317-1331 | the index behind the tree at an index, for balanced and for truncated tokens |
| NifTokens.TreeEndOfTree | compiler/ast2nif.edl:1317-1331 | on the tokens of a balanced tree inside any token list the skipper stops right behind it |
| NifCookie.CookieCtx.ExpandTd | compiler/ast2nif.edl:1370-1383 | with the memo in any state reached by earlier calls, on definitions without cycles, the text of a type is the one of the memo-free recursion; the run ends on cyclic definitions too |
| NifCookie.CookieCtx.HashRegion | compiler/ast2nif.edl:1385-1430 | the atoms of a region, with a skipped part and a kept first definition, are those of the canonical form |
| NifCookie.CookieCtx.HashTwoRuns | compiler/ast2nif.edl:1385-1430 | both passes over a region that is cut in two by the skipped part |
| NifCookie.CookieCtx.HashRun | compiler/ast2nif.edl:1407-1430 | the second pass over an uninterrupted run feeds one atom for each token |
| NifCookie.CookieCtx.HashToken | compiler/ast2nif.edl:1407-1430 | a token feeds its ordinal, its expansion, its literal name or its content |
| NifCookie.NumberRun | compiler/ast2nif.edl:1385-1406 | the first pass gives ordinals to the module-local definitions in order of first appearance, without the kept first one |
| NifCookie.NumberTwoRuns | compiler/ast2nif.edl:1385-1406 | the same over a region cut in two |
| NifCookie.NumberToken | compiler/ast2nif.edl:1385-1406 | one token of the first pass |
| NifCookie.ExpandIgnoresBusy | compiler/ast2nif.edl:1370-1383 | on definitions without cycles the guard against recursion never fires, so the text of a type does not depend on where the expansion started |
| NifCookie.TypeText | compiler/ast2nif.edl:1370-1383 | on definitions without cycles a type reads as the digest of its own definition hashed on its own |
| NifCookie.AtomsRenamed | compiler/ast2nif.edl:1362-1430 | alpha-invariance of a region: renaming consistently and injectively what it defines and the types that it expands leaves its hash input identical |
| NifCookie.ExpandRenamed | compiler/ast2nif.edl:1370-1383 | the text of a type is the same under its new name |
| NifCookie.TextRenamed | compiler/ast2nif.edl:1407-1430 | each name of the region reads the same after the renaming |
| NifCookie.AtomsTell | compiler/ast2nif.edl:1385-1430 | the converse: regions with equal hash input agree in every token that is no name, in every literal name, in which names define, and in which numbered names are equal |
| NifCookie.AtomMeans | compiler/ast2nif.edl:1407-1430 | what an atom tells about its token |
| NifCycles.OrderFreeExactly | compiler/ast2nif.edl:1333-1430 | over the type definitions of any module, with a digest without collisions: each type has one text wherever the expansion started if and only if no type refers to itself through another type, if and only if the types can be ranked |
| NifCycles.TextsDiffer | compiler/ast2nif.edl:1370-1383 | a type from which references lead to another reads otherwise inside the expansion of that type than outside |
| NifCycles.AcyclicIsRanked | compiler/ast2nif.edl:1370-1383 | types among which no circle of references runs can be ranked |
| NifCycles.CircleLeaksName | compiler/ast2nif.edl:1370-1383 | for every circle of types, renaming one type of it changes that type's text |
| NifCycles.CyclesLeakNames | compiler/ast2nif.edl:1370-1383 | an input for both: two type definitions that refer to each other |
| NifInterface.InterfaceInput | compiler/ast2nif.edl:1534-1559 | for every well-shaped module the scan with its memo, its definition table and its index arithmetic computes the hash input given by recursion over the trees |
| NifInterface.InterfaceIgnoresRenaming | compiler/ast2nif.edl:1362-1559 | the hash input of the whole interface is unchanged by a consistent, injective renaming of module-local names that each hashed region defines or expands |
| NifInterface.InterfaceIgnoresBodies | compiler/ast2nif.edl:1432-1514 | the hash input is unchanged when bodies of exported routines are replaced, and private definitions and the implementation are edited, as long as the list of type definitions stays |
| NifInterface.InterfaceDependsOn | compiler/ast2nif.edl:1480-1559 | the hash input depends on nothing but the hashed regions and the list of type definitions: any other edit, on the top level or inside definitions, leaves it identical |
| NifInterface.TdStarts | compiler/ast2nif.edl:1537-1544 | the pre-pass finds the first definition of every type, wherever it is embedded |
| NifInterface.AddAllTdsByList | compiler/ast2nif.edl:1537-1544 | the table of type definitions depends on the list of definitions only |
| NifInterface.FieldStarts | compiler/ast2nif.edl:1439-1445 | the indices of the thirteen fields of an exported definition |
| NifInterface.FindBody | compiler/ast2nif.edl:1446-1475 | the skipped part is exactly the body of an exported routine, and nothing for anything else |
| NifInterface.FindBodySon | compiler/ast2nif.edl:1465-1475 | walking over flags, type and sons finds the body, or says that the ast ends before it |
| NifInterface.CookieSd | compiler/ast2nif.edl:1432-1478 | an exported definition contributes its signature without the body, a private one nothing |
| NifInterface.ScanStmts | compiler/ast2nif.edl:1480-1514 | the scan contributes what the recursion over all trees contributes |
| NifInterface.ScanStep | compiler/ast2nif.edl:1480-1514 | one step of the scan leaves the contribution of the rest |
| NifInterface.ScanMarked | compiler/ast2nif.edl:1484-1514 | definitions, the implementation and subtrees that are hashed whole are taken or skipped as one; a pure-enum registration is not among them and is descended into |
| NifInterface.ScanTreeRenamed | compiler/ast2nif.edl:1432-1514 | renaming a tree leaves its contribution identical |
| NifInterface.EditKeepsScan | compiler/ast2nif.edl:1432-1514 | editing bodies leaves a tree's contribution identical |
| NifInterface.EditKeepsTds | compiler/ast2nif.edl:1537-1544 | editing bodies leaves the list of type definitions identical |
| NifWritten.WrittenIsRanked | compiler/ast2nif.edl:553-577 | the types of every file that the writer puts out can be ranked: by the order in which they were marked |
| NifWritten.WrittenIsShaped | compiler/ast2nif.edl:610-692 | every symbol definition in such a file has the shape that the interface scan relies on |
| NifWritten.WrittenText | compiler/ast2nif.edl:1370-1383 | a type of such a file reads as the digest of its own definition hashed on its own: the guard against recursion never fires on another type |
| NifWritten.WrittenIgnoresRenaming | compiler/ast2nif.edl:1362-1559 | the hash input of such a file's interface is unchanged by a consistent, injective renaming of module-local names that each hashed region defines or expands |
| NifWritten.HashWritten | compiler/ast2nif.edl:1534-1559 | for every module that is written, the scan of the file's tokens computes the hash input given by recursion over the file's tree |
| NifRenumbering.RegionRenumbered | compiler/ast2nif.edl:1362-1430 | a region's hash input stays the same when the module's counters give other numbers to what the region defines and to the module's types |
| NifRenumbering.InterfaceRenumbered | compiler/ast2nif.edl:1362-1559 | so does the hash input of a whole interface, if every other name keeps its number in the hashed regions |
| NifRenumbering.WrittenRenumbered | compiler/ast2nif.edl:1362-1559 | the same for every file that the writer puts out, whose types have no circles anyway |
| NifRenumbering.OwnNamesRenumbered | compiler/ast2nif.edl:280-334 | the renumbering gives the names of the module's own symbols and types new numbers and keeps everything else |
| NifRenumbering.ForeignNamesStay | compiler/ast2nif.edl:1407-1430 | the names of other modules are hashed as they are |
| NifSensitivity.InterfaceTells | compiler/ast2nif.edl:1480-1514 | the converse, for digests without collisions: two written modules with the same hash input have replayed actions that agree, the same registrations in the same order apart from pure enums, and exported definitions whose signatures agree, down to any depth of the types that they refer to |
| NifSensitivity.InputTells | compiler/ast2nif.edl:1385-1430 | two regions with the same hash input, from different modules, agree in every token; names may differ only where both regions define and hide them, consistently, and where both name types whose definitions agree in turn |
| NifSensitivity.ShownOneByOne | compiler/ast2nif.edl:1480-1514 | the hash input shows where each hashed tree ends |
| NifSensitivity.ScansShow | compiler/ast2nif.edl:1480-1514 | the scan hashes exported definitions without the bodies of routines, replayed actions, registrations apart from those of pure enums, imports, includes and exports, and nothing else |
| NifSensitivity.FileShown | compiler/ast2nif.edl:1770-1800 | of a written file these are the replayed actions, the registrations and the signatures of what is exported |
| NifWritten.IndexKnowsTypes | compiler/ast2nif.edl:2050-2076 | the index of such a file has every symbol of the module that the file defines, with the symbol's type |
| NifWritten.WrittenEnv | compiler/ast2nif.edl:2050-2076 | the index, together with those of imported modules, is an environment in which the file reads back |
| NifLazy.LazyForces | compiler/ast2nif.edl:2868-2911 | a lazily loaded tree stands for the eagerly loaded one if and only if every deferred body has a kind with sons; the two fail together |
| NifLazy.BodiesPutOff | compiler/ast2nif.edl:2868-2892 | of a node with sons, exactly the seventh son of a routine is put off, unless it is absent or an empty node |
| NifLazy.KindsThatGraft | compiler/ast2nif.edl:2896-2911 | bodies of the kinds without a payload can be grafted, and no others |
| NifLazy.ScanRegisters | compiler/ast2nif.edl:2278-2319 | after the scan every local definition that loading will meet is registered, also those inside the definitions of local symbols |
| NifLazy.EnterRegisters | compiler/ast2nif.edl:2300-2317 | loading a new local symbol on the spot registers everything that its own definition defines in its turn |
| NifLazy.ThreadKeeps | compiler/ast2nif.edl:2278-2319 | after the scan loading registers nothing new, so the snapshot that a deferred body keeps is the table it would have met |
| NifLazy.FillAnywhere | compiler/ast2nif.edl:2896-2911 | filling any placeholder, however deep and in any order, changes nothing of what the tree stands for |
| NifLazy.FillForces | compiler/ast2nif.edl:2896-2911 | a filled placeholder stands for what it stood for |
| NifLazy.LazyTree.LookInto | compiler/ast2nif.edl:2896-2911 | grafts one body in place; a failure means that eager loading fails too or that a body has no sons |
| NifLazy.LazyTree.LookAround | compiler/ast2nif.edl:2896-2911 | lazy refines eager: after any order of looks, a tree without placeholders is the eagerly loaded one |
| NifLazy.LookEverywhere | compiler/ast2nif.edl:2896-2924 | looking everywhere ends, also for bodies inside bodies, and gives the eagerly loaded tree |
| NifLazyDefinitions.LoadDefinition | compiler/ast2nif.edl:2639-2653 | the scan of a whole definition and the loading of its ast, constraint, body and library path with what the scan found give lazy trees that stand for the eager load of the definition |
| NifLazyDefinitions.LookAtDefinition | compiler/ast2nif.edl:2896-2924 | looking at everything in a lazily loaded definition gives the eagerly loaded one if and only if its deferred bodies have kinds with sons |
| NifLazyDefinitions.LoadAndLook | compiler/ast2nif.edl:2639-2653 | so does any order of looks into its ast before that |
| NifLazyDefinitions.EntryRegistered | compiler/ast2nif.edl:2278-2319 | after the scan of a definition every local definition in its four nodes is registered |
| NifLazyDefinitions.SymByParts | compiler/ast2nif.edl:2539-2624 | a definition loads exactly if its parts and its nodes do |
| NifLazyDefinitions.LiteralBodyLost | compiler/ast2nif.edl:2896-2911 | an input: a routine whose body is a literal loads eagerly, and its deferred body cannot be grafted |
| NifLazyDefinitions.ScanMatters | compiler/ast2nif.edl:2639-2644 | an input: a routine body that defines a field, and a reference behind it; without the scan the lazily loaded reference has no type, with it lazy and eager loading agree |
| NifLazyDefinitions.FieldDefIsWhole | compiler/ast2nif.edl:2344-2360 | the field's definition in that input is a complete one, which loads |
| NifNames.ParseSymName | compiler/ast2nif.edl:357-380 | the loop that looks for dots from the right computes the specified split of every text |
| NifNames.LocalNameReadsBack | compiler/ast2nif.edl:280-380 | a local name reads back exactly if the identifier is not empty, dots inside it included |
| NifNames.GlobalFormReadsBack | compiler/ast2nif.edl:324-380 | a global name reads back identifier, number and suffix exactly if the suffix does not start with a digit, dots in the identifier included |
| NifNames.SymNameReadsBack | compiler/ast2nif.edl:280-403 | the stub made of a written name has the symbol's kind, identifier, number, home module and backend mark, if and only if the identifier of a symbol without a marker does not end in one |
| NifNames.StubRebuildsKey | compiler/ast2nif.edl:336-349 | the name rebuilt from a stub is the key it was found under, if and only if the identifier of a symbol without a marker does not end in that of fields |
| NifNames.FieldNamesAreTold | compiler/ast2nif.edl:382-386 | the field test says yes for exactly the names of fields, whatever the identifiers are |
| NifNames.SymNamesInjective | compiler/ast2nif.edl:280-334 | symbols with equal names agree in kind, identifier and in what tells them apart, unless one without a marker ends in that of packages |
| NifNames.SymNameParses | compiler/ast2nif.edl:280-380 | the parser finds in every symbol's name the identifier with its marker, the number and the module's suffix, whatever the identifier is |
| NifNames.SymNamesEqual | compiler/ast2nif.edl:280-334 | two symbols have one name if and only if they agree in the identifier with its marker, the number, and whether and where they are at home |
| NifNames.PackageNameTaken | compiler/ast2nif.edl:268-279 | an input: a symbol whose identifier ends in the marker of packages has a package's name |
| NifNames.TemplateIdents | compiler/evaltempl.edl:71-74 | identifiers without a backtick, and those that a template expansion makes of them, end in no marker and do not start like the name of a type |
| NifNames.NamesSpelled | compiler/ast2nif.edl:253-334 | the texts of the names of fields, packages, backend symbols, other symbols and types |
| NifNames.ReadTypeName | compiler/ast2nif.edl:2237-2268 | the digit loops of the type-name reader compute the specified stub |
| NifNames.TypeNameReadsBack | compiler/ast2nif.edl:54-66 | kind, item and suffix of a type name read back |
| NifNames.TypeStubReadsBack | compiler/ast2nif.edl:484-497 | the stub of a written type has its kind, item, module and backend mark |
| Decimal.ReadDigits | compiler/ast2nif.edl:364-366 | the digit loop finds the end of the run and its value |
| Decimal.NumeralReadsBack | compiler/ast2nif.edl:357-380 | a numeral inside a text, followed by no digit, reads back as its number |
| Decimal.NumeralInjective | compiler/ast2nif.edl:280-334 | different numbers have different numerals |
| NifIds.Interleave | compiler/ast2nif.edl:1971-2225 | over every order of loads and mints all minted symbol items and all type items of a module are pairwise distinct, new, and above the file's seed |
| NifIds.DecodeContext.ModuleId | compiler/ast2nif.edl:2101-2136 | a load sets both counters to the file's seed; items stay distinct exactly if no reload meets items that were minted already |
| NifIds.DecodeContext.NextSymId | compiler/ast2nif.edl:2209-2217 | the item is the counter's next value, new, above the seed, and carries module and backend mark |
| NifIds.DecodeContext.NextBackendSymItem | compiler/ast2nif.edl:1971-1990 | a new item above the seed, or -1 exactly for a module that is not loaded |
| NifIds.DecodeContext.NextBackendTypeItem | compiler/ast2nif.edl:1992-2003 | the same for types, from their own counter |
| NifIds.LaterStagesAbove | compiler/ast2nif.edl:3523-3533 | if every stage writes the larger of its counters as the next seed, each item of a later stage lies above each item of an earlier one, symbols and types alike |
| NifIds.ReloadRepeats | compiler/ast2nif.edl:2108-2135 | the items of the symbol and the type that are drawn after a forced reload are among those drawn before if and only if the module had any |
| NifIds.IdGenerator.NewSym | compiler/ast.edl:767-775 | the pair of name and number is new, numbers of a name are used without gaps, and the module's own name at 0 is reserved |
| NifIds.IdGenerator.NextSymId | compiler/ast.edl:547-559 | a front-end generator counts on its own; a backend generator draws from the loader's counter, and never an item that exists |
| NifIds.IdGenerator.NextTypeId | compiler/ast.edl:561-575 | the same for types |
| NifIds.IdGenerator.FromModule | compiler/ast.edl:523-526 | starts behind the module's own item, with its name reserved |
| NifIds.IdGenerator.ForBackend | compiler/ast.edl:528-542 | a generator with the backend mark and the module's name reserved |
| NifIds.IdGenerator.ForPackage | compiler/ast.edl:544-545 | the next item is the given one |
| NifIds.EarlySym | compiler/ast.edl:547-559 | an item that is drawn before the module is loaded is handed out again among any number of later draws if and only if it lies above what the module's file uses and the draws get that far |
| NifIds.EarlyType | compiler/ast.edl:561-575 | the same for types |
| NifIds.EarlyMintRepeats | compiler/ast.edl:547-559 | an input: with a file that uses nothing the first draw repeats the first early id |
| NifIds.ToIdTellsApart | compiler/itemids.edl:91-98 | packed ids are equal exactly if the items are as many strides apart as the modules are the other way round; ids with items less than a stride apart are told apart |
| NifIds.IdLayout | compiler/itemids.edl:12-98 | where the backend's mark and the module stand in an id, and how it is packed |
| NifIds.DerivedFieldsAreTold | compiler/itemids.edl:65-75 | a derived field id matches its source and itself and no other source |
| NifNaming.NamesDistinctExactly | compiler/ast2nif.edl:280-334 | whatever the identifiers are: no other symbol or type has the name of one of the module's own if and only if nothing that is named after the module has the same identifier with its marker, backend mark and number |
| NifNaming.SymNamesMeet | compiler/ast2nif.edl:280-334 | a symbol has the name of one of the module's own exactly if it is named after the module and has the same identifier with its marker, backend mark and number |
| NifNaming.TypeNamesMeet | compiler/ast2nif.edl:484-497 | a type has the name of one of the module's own exactly if it is one with the same kind, backend mark and item |
| NifNaming.SymMeetsType | compiler/ast2nif.edl:280-497 | a symbol and a type, one of them the module's own, have one name exactly if both are named after the module and agree in identifier or kind, backend mark and number |
| NifNaming.TypeNameTaken | compiler/ast2nif.edl:484-497 | an input: a symbol whose identifier starts like the name of a type has that name |
| NifNaming.FreeMarks | compiler/ast2nif.edl:280-497 | without such identifiers, own symbols that differ in identifier and number or item, and own types that differ in kind and item, share their names with nothing |
| NifNaming.FieldsAreLocal | compiler/ast2nif.edl:280-386 | the names of fields, and no others, have no suffix, and the loader knows them as fields |
| NifNaming.MintSyms | compiler/ast.edl:767-775 | all symbols that a generator makes differ in identifier and number, or item, and from the module's own symbol |
| NifNaming.MintTypes | compiler/ast.edl:561-575 | all types that a generator makes differ in kind and item |
| NifNaming.DrawnNamesDiffer | compiler/ast.edl:523-575 | however many symbols and types a module's front end and backend draw, gensym'd symbols among them, a graph made of such draws has no two entities of the same name; no identifier ends in the marker of packages or starts like the name of a type |
| ProbeSequence.EverySlotProbed | compiler/astdef.edl:1113-1119 | from every start, every slot of a power-of-two table is probed within one round |
| ProbeSequence.ReturnsAfter | compiler/astdef.edl:1113-1119 | full period: steps lead back to their start exactly if the table size divides their number |
| ProbeSequence.ProbesDiffer | compiler/astdef.edl:1113-1119 | the probes of one round are pairwise different |
| ProbeSequence.ProbeClosed | compiler/astdef.edl:1113-1116 | the iterated step in closed form |
| ProbeSequence.SumDivides | compiler/astdef.edl:1113-1119 | a power of two divides the geometric sum of powers of five exactly if it divides the number of summands |
| ProbeChains.SearchStops | compiler/astalgo.edl:628-635 | a search that meets other keys only and then a free slot proves the key absent |
| ProbeChains.SearchGoesOn | compiler/astalgo.edl:628-635 | while all slots met are taken and one is free, the search is still in its first round, so the loop ends |
| ProbeChains.Placed | compiler/astalgo.edl:645-654 | putting a new key into the first free slot of its probes keeps every key on an unbroken chain from its hash slot, and keys distinct |
| ProbeChains.SomeFree | compiler/astdef.edl:1121-1123 | a table with more slots than keys has a free slot |
| IdTables.Search | compiler/astalgo.edl:628-635 | the probe loop ends, and finds the key exactly if the map has it; otherwise it gives the slot where the key belongs |
| IdTables.RoomLeft | compiler/astdef.edl:1121-1123 | a table is kept exactly as long as it is filled to two thirds at most, with at least four free slots |
| IdTables.Table.RawGet | compiler/astalgo.edl:688-694 | the index of the key's slot, or -1 exactly for an absent key |
| IdTables.Table.Get | compiler/astalgo.edl:637-640 | the last value put for the key, or the default |
| IdTables.Table.RawInsert | compiler/astalgo.edl:645-654 | inserting a new key into a table with room adds exactly this key |
| IdTables.Table.MoveAll | compiler/astalgo.edl:665-671 | rehashing into the grown array keeps the map |
| IdTables.Table.Enlarge | compiler/astalgo.edl:498-503 | doubles the array, keeps the map, and leaves the old array alone |
| IdTables.Table.Put | compiler/astalgo.edl:656-673 | the map after a put is the map before with the key's new value; a free slot always remains, the counter is the number of keys |
| IdTables.Table.ContainsOrIncl | compiler/astalgo.edl:510-526 | says whether the key is there, and adds it if not |
| IdTables.PutAll | compiler/astalgo.edl:683-726 | after every run of puts a lookup gives the last value put for the key, or the default |
| IdTables.PutAllInts | compiler/astalgo.edl:683-726 | the same for the table of integers, whose default is the reserved key |
| IdTables.PutAllIds | compiler/astalgo.edl:628-673 | the same for the table of ids, told apart by what they pack into: by themselves, if their items are less than a stride apart |
| IdTables.PutAllObjects | compiler/astalgo.edl:488-526 | the same for sets of objects, whatever they hash to |
| IdTables.HoldsOnce | compiler/astalgo.edl:628-673 | an array of entries stands for one map only |
| LineEditor.Edit | lib/wrappers/linenoise/linenoise.c:768-950 | for every run of input characters the buffer, the cursor and the history end as the abstract session of a zipper and a list of lines does |
| LineEditor.Editor.Press | lib/wrappers/linenoise/linenoise.c:814-949 | every key of the switch acts on line and history as on the abstract session, and ends it in the same cases |
| LineEditor.Editor.PressOnLine | lib/wrappers/linenoise/linenoise.c:832-948 | every key that acts on the line alone acts as its zipper operation |
| LineEditor.Editor.constructor | lib/wrappers/linenoise/linenoise.c:768-792 | starts with an empty line, which becomes the newest history line, and keeps a byte for the final NUL |
| LineEditor.Editor.Insert | lib/wrappers/linenoise/linenoise.c:638-662 | the character stands left of the cursor, if the line is not full |
| LineEditor.Editor.MoveLeft | lib/wrappers/linenoise/linenoise.c:665-670 | the cursor moves over one character to the left, or stays at the start |
| LineEditor.Editor.MoveRight | lib/wrappers/linenoise/linenoise.c:673-678 | the cursor moves over one character to the right, or stays at the end |
| LineEditor.Editor.MoveHome | lib/wrappers/linenoise/linenoise.c:681-686 | everything is right of the cursor |
| LineEditor.Editor.MoveEnd | lib/wrappers/linenoise/linenoise.c:689-694 | everything is left of the cursor |
| LineEditor.Editor.Delete | lib/wrappers/linenoise/linenoise.c:724-731 | the first character right of the cursor is gone |
| LineEditor.Editor.Backspace | lib/wrappers/linenoise/linenoise.c:734-742 | the last character left of the cursor is gone |
| LineEditor.Editor.DeletePrevWord | lib/wrappers/linenoise/linenoise.c:746-757 | blanks and then a word left of the cursor are gone, and nothing else |
| LineEditor.Editor.Transpose | lib/wrappers/linenoise/linenoise.c:847-855 | the characters around the cursor are exchanged, and the cursor moves on unless it is in front of the last one |
| LineEditor.Editor.KillLine | lib/wrappers/linenoise/linenoise.c:926-930 | the line is empty |
| LineEditor.Editor.KillToEnd | lib/wrappers/linenoise/linenoise.c:931-935 | what is right of the cursor is gone |
| LineEditor.Editor.HistoryNext | lib/wrappers/linenoise/linenoise.c:700-720 | the edited line is kept in its history slot and the next older or newer line is shown, cut to the buffer |
| LineEditor.Editor.ShowLine | lib/wrappers/linenoise/linenoise.c:715-717 | copies as much of a line as fits, ends it with NUL, and puts the cursor at its end |
| LineEditor.PrevNextRestores | lib/wrappers/linenoise/linenoise.c:700-720 | going to an older line and back shows the edited text again exactly if it is shorter than the usable buffer, with the cursor at its end |
| LineEditor.ReadKey | lib/wrappers/linenoise/linenoise.c:868-925 | decoding a key takes at least one character and never more than there are |
| LineEditor.Pressed | lib/wrappers/linenoise/linenoise.c:814-949 | as long as the session goes on, its history index stays inside the history |
| LineEditor.MovesKeepText | lib/wrappers/linenoise/linenoise.c:665-678 | moves change no text, and moving back restores the cursor |
| LineEditor.SwapExchanges | lib/wrappers/linenoise/linenoise.c:847-855 | transposing changes the text at two positions only, and exchanges them |
| LineEditor.BackspaceUndoesTyping | lib/wrappers/linenoise/linenoise.c:638-742 | backspace, or moving left and deleting, undoes a typed character that had room |
| LineEditor.KeysOnText | lib/wrappers/linenoise/linenoise.c:926-943 | where a character goes that is typed behind control-A, E, K, U and L, and what is left of the text |
| LineEditor.KeysAtCursor | lib/wrappers/linenoise/linenoise.c:829-861 | the same behind control-B, F, H and D and behind rubout |
| LineEditor.KeysAroundCursor | lib/wrappers/linenoise/linenoise.c:847-855 | the same behind control-T |
| LineEditor.WordKey | lib/wrappers/linenoise/linenoise.c:944-946 | the same behind control-W, which removes the blanks in front of the cursor and the word in front of them |
| LineEditor.KeysThatEnd | lib/wrappers/linenoise/linenoise.c:815-846 | enter, control-C, and control-D on an empty line end the session, and what they leave of the history |
| LineEditor.KeysInHistory | lib/wrappers/linenoise/linenoise.c:862-867 | control-P shows the line before the edited one, and control-N the edited one again |
| LineEditor.KeypadKeys | lib/wrappers/linenoise/linenoise.c:868-925 | arrows, home, end and delete do what their control keys do |
| LineEditor.UnknownKeys | lib/wrappers/linenoise/linenoise.c:868-925 | sequences that stand for no key do nothing, and how long they are |
| LineHistory.AddAll | lib/wrappers/linenoise/linenoise.c:1108-1134 | after every run of adds the history holds the newest lines of the input with consecutive duplicates collapsed |
| LineHistory.AddedIsNewest | lib/wrappers/linenoise/linenoise.c:1108-1134 | comparing each line with the newest one only and dropping the oldest one only amounts to collapsing first and cutting afterwards |
| LineHistory.History.Add | lib/wrappers/linenoise/linenoise.c:1108-1134 | appends a copy unless the line repeats the newest one or the capacity is 0, and drops and frees the oldest line if it is full; every allocated line is live in exactly one slot or freed |
| LineHistory.History.SetMaxLen | lib/wrappers/linenoise/linenoise.c:1141-1167 | keeps exactly the newest lines, frees the others, and refuses lengths below 1 without a change |
| LineHistory.History.Rewrite | lib/wrappers/linenoise/linenoise.c:704-705 | replaces one line, freeing the old copy |
| LineHistory.History.DropOldest | lib/wrappers/linenoise/linenoise.c:1127-1131 | frees the oldest line and moves up the others |
| LineHistory.History.DropNewest | lib/wrappers/linenoise/linenoise.c:816-817 | frees the newest line |
| LineHistory.History.FreeOldest | lib/wrappers/linenoise/linenoise.c:1151-1157 | frees exactly the lines that do not fit |
| TypeAliases.IsPartOf | compiler/aliases.edl:110-114 | on every type graph, cyclic or not, the search ends and says yes exactly if some type reachable by base class, fields, elements or modifiers compares equal |
| TypeAliases.Search.VisitType | compiler/aliases.edl:90-108 | a yes comes with a reachable equal type; a no means that everything reachable is marked and nothing marked compares equal |
| TypeAliases.Search.VisitParts | compiler/aliases.edl:95-108 | the same for the parts of a type, by its kind |
| TypeAliases.Search.VisitKids | compiler/aliases.edl:104-107 | the same for the elements of a tuple |
| TypeAliases.Search.VisitRec | compiler/aliases.edl:69-88 | the same for a record tree |
| TypeAliases.Search.VisitRecs | compiler/aliases.edl:72-75 | the same for a record list |
| TypeAliases.Search.VisitBranches | compiler/aliases.edl:80-85 | the same for the branches of a variant record |
| TypeAliases.ExhaustedFindsNothing | compiler/aliases.edl:90-108 | the shared set of marked types loses nothing: a search from nothing marked that ends without a find has seen everything reachable |
| TypeAliases.SearchedParts | compiler/aliases.edl:93-108 | marking a type before its parts are searched is sound on cycles |
| TypeAliases.FieldsAre | compiler/aliases.edl:69-88 | the fields of a record list are those of its sons, and those of a variant record its discriminator and the fields of its branches |
| TypeAliases.PartsAre | compiler/aliases.edl:95-108 | the parts of an object are what stands behind its base class and its fields, and those of tuples, containers and modifiers the types that they name |
| Locations.SameLocation | compiler/aliases.edl:33-50 | yes exactly if both expressions are paths of known steps from the same symbol and the paths are equal up to conversions |
| Locations.IsAccessorPrefixOf | compiler/aliases.edl:52-65 | yes exactly if the path of the one is a prefix of the path of the other, at known steps |
| Locations.StepsMatch | compiler/aliases.edl:41-50 | accesses are the same exactly if their last steps and what is in front of them are |
| Locations.OneStepLess | compiler/aliases.edl:54-64 | one step of the walk loses no prefix |
| PathAliases.VerdictMeans | compiler/aliasanalysis.edl:59-127 | yes exactly if under every valuation of run-time indices the concrete path of the object is a prefix of the field's; no exactly if under none |
| PathAliases.Aliases | compiler/aliasanalysis.edl:93-127 | the loop over the two lists from their ends computes the specified verdict |
| PathAliases.CollectImportantNodes | compiler/aliasanalysis.edl:76-94 | collects the accesses from the outermost to the symbol, or fails exactly if the expression is no path |
| PathAliases.SkipConvDfa | compiler/aliasanalysis.edl:13-21 | strips all conversions around an expression and nothing else |
| PathAliases.CompareMeans | compiler/aliasanalysis.edl:111-126 | the verdict on a pair of accesses is yes exactly if they are the same place for all indices, no exactly if for none, and maybe exactly if for some and not for others |
| PathAliases.VerdictSound | compiler/aliasanalysis.edl:99-127 | the verdict on the first accesses holds under every valuation |
| PathAliases.YesIsTransitive | compiler/aliasanalysis.edl:59-127 | yes composes |
| PathAliases.WrappingIsIgnored | compiler/aliasanalysis.edl:13-94 | conversions, checks and address operators around either side change no verdict |
| PathAliases.InsideIsPart | compiler/aliasanalysis.edl:60-97 | a location is no part of a field, element or target of it, and each of these is as much part of the location as the location itself |
| PathAliases.AccessesCompare | compiler/aliasanalysis.edl:99-127 | accesses to two locations nested as deep as each other: the same field, equal literal indices and the same kind of dereference say what the locations say, unknown indices maybe, and everything else no |
| PathAliases.RootsCompare | compiler/aliasanalysis.edl:76-108 | a symbol is part of itself only, and what is neither a symbol nor an access is part of nothing and has no parts |
| PathAliases.EachWrapperIsIgnored | compiler/aliasanalysis.edl:76-84 | each conversion, check and address operator around either side leaves the verdict as it is |
| DrnimFacts.EntailedHolds | analyzer/drnim.edl:1026-1041 | soundness for straight-line code: what the recorded facts entail holds of the final store, for every program over variables none of which is called like a version of another, and every initial store |
| DrnimFacts.FactsHaveModel | analyzer/drnim.edl:1026-1041 | for every such program and every initial store one valuation of the versioned names makes all recorded facts true and agrees with the final store on the current names |
| DrnimFacts.SoundExactly | analyzer/drnim.edl:1026-1041 | the facts are sound for all programs, stores and properties over some variables if and only if none of these is called like a version of another |
| DrnimFacts.ClashIsUnsound | analyzer/drnim.edl:1026-1041 | for every such clash there are a program, a store and a property that the facts entail and that is false at the end |
| DrnimFacts.MarkedMeans | analyzer/drnim.edl:1030-1041 | a value in which the assigned variable is marked as old means what it evaluated to before the assignment |
| DrnimFacts.GrowingKeepsVersions | analyzer/drnim.edl:138-150 | versions recorded later change neither the current nor the previous version of an earlier scope |
| DrnimFacts.GrowingKeepsDisamb | analyzer/drnim.edl:152-158 | symbols met later change no symbol's number |
| DrnimFacts.StableNameTells | analyzer/drnim.edl:160-181 | two names are equal exactly for the same symbol and the same version, where versions that are not positive count as one, unless one symbol is called like a version of the other |
| DrnimFacts.StableNamesTellExactly | analyzer/drnim.edl:160-181 | the names of all versions of two symbols tell them apart if and only if neither is called like a version of the other |
| DrnimFacts.UnversionedIsNoVersion | analyzer/drnim.edl:160-181 | a symbol in whose name the last backtick is followed by neither a scope nor a version is called like no version |
| DrnimFacts.TemplateNames | compiler/evaltempl.edl:71-74 | names without a backtick, and those that a template expansion makes, are such names |
| DrnimFacts.VersionNameClashes | analyzer/drnim.edl:160-181 | an input: a variable that is called like the first version of another |
| DrnimFacts.DrnimContext.CurrentVarVersion | analyzer/drnim.edl:138-143 | the number of versions of the symbol below the scope, enabled or not |
| DrnimFacts.DrnimContext.PreviousVarVersion | analyzer/drnim.edl:145-150 | one less than the number of enabled versions below the scope |
| DrnimFacts.DrnimContext.Number | analyzer/drnim.edl:152-158 | the symbol's number among those of its name; a new symbol is added |
| DrnimFacts.DrnimContext.NameOf | analyzer/drnim.edl:160-181 | the stable name of a symbol at a scope, old or current |
| DrnimFacts.DrnimContext.FreshVersion | analyzer/drnim.edl:815-819 | one more version of the symbol |
| DrnimFacts.DrnimContext.AddAsgnFact | analyzer/drnim.edl:872-877 | one more fact, at the current scope |
| DrnimFacts.DrnimContext.TraverseAsgn | analyzer/drnim.edl:1026-1041 | an assignment makes a version and then records its fact over the marked value |
| DrnimFacts.DrnimContext.TraverseAll | analyzer/drnim.edl:1026-1041 | a run over a program records exactly the facts and versions that the soundness lemmas speak of |
| SysLocks.RunsAreSafe | lib/genode_cpp/syslocks.h:28-78 | in every run of any number of threads at most one owns the lock, the flag says whether mutex b is held whenever mutex a is free, the inner acquire of a try never blocks, and downs never exceed ups |
| SysLocks.StepKeeps | lib/genode_cpp/syslocks.h:28-78 | every step of every thread keeps the invariant |
| SysLocks.RunKeeps | lib/genode_cpp/syslocks.h:28-78 | so does every run |
| SysLocks.SemaphoreChanges | lib/genode_cpp/syslocks.h:63-78 | between any two points of a run the semaphore changes by ups minus downs |
| SysLocks.SignalNotLost | lib/genode_cpp/syslocks.h:63-73 | a thread that waits after a signal was sent can go on as long as nobody else took the signal, also if it was sent between its release and its down |
| SysLocks.AcquireEndsIfFree | lib/genode_cpp/syslocks.h:28-33 | an acquire that holds mutex a can end exactly if mutex b is free |
| SysLocks.StuckForever | lib/genode_cpp/syslocks.h:28-56 | a contended acquire holds mutex a for the rest of every run, so that the owner never releases |
| SysLocks.ContentionSticks | lib/genode_cpp/syslocks.h:28-56 | an input: two threads that acquire one after the other get into that state from every initial state |
| SysLocks.TryTakesFree | lib/genode_cpp/syslocks.h:35-49 | a thread that tries to take the free lock and is not disturbed has it after five steps |
| SysLocks.TryFailsOnTaken | lib/genode_cpp/syslocks.h:35-49 | on a lock that is taken a try fails, and gives back what it holds |
| SysLocks.AcquireTakesFree | lib/genode_cpp/syslocks.h:28-33 | acquiring the free lock undisturbed takes four steps |
| SysLocks.ReleaseFrees | lib/genode_cpp/syslocks.h:51-56 | so does giving it back |
| SysLocks.WaitTakesOne | lib/genode_cpp/syslocks.h:63-78 | a wait takes one signal and then acquires, and a signal changes nothing else |
| SysLocks.BlockedExactly | lib/genode_cpp/syslocks.h:28-78 | a thread can move exactly if it needs no mutex that is held and waits for no signal that is not there |
| BitSets.In | compiler/bitsets.edl:29-30 | membership in the set that the bytes stand for |
| BitSets.Incl | compiler/bitsets.edl:32-35 | adds exactly the element |
| BitSets.Excl | compiler/bitsets.edl:37-39 | removes exactly the element |
| BitSets.Init | compiler/bitsets.edl:41-42 | the empty set |
| BitSets.Union | compiler/bitsets.edl:44-45 | in place, the union of the two sets |
| BitSets.Diff | compiler/bitsets.edl:47-48 | in place, the difference |
| BitSets.SymDiff | compiler/bitsets.edl:50-51 | in place, the symmetric difference |
| BitSets.Intersect | compiler/bitsets.edl:53-54 | in place, the intersection |
| BitSets.Equals | compiler/bitsets.edl:56-60 | yes exactly for equal sets |
| BitSets.ContainsAll | compiler/bitsets.edl:62-66 | yes exactly if the first set is a subset of the second |
| BitSets.CountIsBits | compiler/bitsets.edl:72-81 | the sum of masked and shifted bits is the number of bits that are set |
| BitSets.Card | compiler/bitsets.edl:89-92 | the cardinality of the set |
| BitSets.ToWord | compiler/bitsets.edl:94-97 | bit `i` of the word says whether `i` is in the set, and bits beyond the size are clear |

## Left out

- NifWriter.Writer.WriteSymNode: line infos, comments and the flags of symbol nodes, which the format does not carry as tokens, are not modelled.
- NifModule.ModuleWriter.WriteModule: the `(unusedid)` entry and the `deps` header (imports, includes, exports, re-exported modules, offers, expansions) are not modelled; registrations are for symbols of ordinary classes, and sealed states are one set of written keys that also holds the dedup sets.
- NifWriter.Writer.WriteRoutine: the node of a routine is taken to be its symbol's ast, which is what holds after semantic checking; another node that names the same symbol would be replaced by that ast, and if it stood inside that ast the recursion would not end.
- NifWriter.Writer.WriteLambda: the same for lambda and do expressions.
- NifParser.NodeReadsBack: import, include and export statements, which go to the deps header, are not nodes of the model.
- NifInterface.InterfaceInput: the digest is abstract, and the chaining with the cookies of imported modules, the implementation cookie and the edges file are left out.
- NifCookie.AtomsRenamed: states invariance for type definitions without circles through two types; with circles it is false, see `CircleLeaksName`, and the writer makes none, see `WrittenIgnoresRenaming`.
- NifLazyDefinitions.LoadDefinition: the table of locals keeps the name and the type of a local symbol, and not the rest of its own definition, since references to it show nothing else; definitions of one local name must agree on its type.
- NifLazy.LookEverywhere: the hook that forces bodies before a lowered module is written is not modelled.
- NifNaming.DrawnNamesDiffer: fields and packages, which other modules name too, need not have names of their own.
- NifIds.IdGenerator.NewSym: 32-bit overflow of items and numbers is not modelled.
- `writeLoweredModule` is modelled only through the seed that it carries forward; index entries, positions and file storage are left out.
- The tag texts of the format are constructors of a datatype, so that a misspelt tag is not part of the model.
- IdTables.Search: hashes are unbounded integers, of which only the low bits matter; string tables and identifier iterators, which use the same probe loops, are left out.
- LineEditor.Edit: terminal output, raw mode, completion, hints, multi-line mode, truncated escape sequences, NUL characters in the input and failing allocations are left out; the input is the characters read.
- LineHistory.History.SetMaxLen: `int` is unbounded.
- TypeAliases.IsPartOf: the comparison of types is a parameter; the search over expressions (`compiler/aliases.edl:116` and below) is left out, since it answers no where a location contains the other.
- Locations.SameLocation: literal indices are integers.
- PathAliases.VerdictMeans: literal indices are integers, and the fields of dot expressions are symbols.
- DrnimFacts.EntailedHolds: symbols have ids of their own, also across modules; straight-line assignments to variables only; loops, calls and branches, assignments to fields and elements, names of compound expressions and the mapping to the solver are left out, since the facts of branches and loops are not sound in the same sense.
- SysLocks.RunsAreSafe: safety only; broadcasting is one up, as in the code, and mutexes and the semaphore are atomic steps.
- BitSets.Union: the sets have the length of the first array; the code would fail on a shorter second one.
