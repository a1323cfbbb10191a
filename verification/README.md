# Verified models of the vendored libraries

The server in this repository is a thin layer over vendored libraries: Boost.CRC, Boost.Rational
and the ClearSilver template system. This project models their algorithms in Dafny and proves what
they promise. Where the source changes objects in place, the model does too: classes with mutable
fields for the CRC engines, the hash table, the dataset's nodes, the template builder, the chain
of local variables and fractions, and loops over arrays and texts for the rest. Each such method
is proved against a specification function; the lemmas then say what that function means.

| part | files |
|---|---|
| CRC: both engines, the augmented form, polynomial division | `Bits`, `CrcRegister`, `CrcPolynomial`, `CrcMessage`, `CrcBasic`, `CrcOptimal` |
| Chained hash table | `HashMask`, `KeyedMap`, `HashTable` |
| HDF dataset as a map from paths to entries; links | `HdfNames`, `HdfDir`, `HdfLinks`, `HdfSets`, `HdfLaws` |
| HDF dataset as linked nodes | `HdfNodes`, `HdfGrow`, `HdfShrink`, `HdfSorted`, `HdfPending`, `HdfWalk`, `HdfReadBack`, `HdfTree` |
| HDF text | `HdfLines`, `HdfText`, `HdfByHand`, `HdfDump`, `HdfFile`, `StrStrip` |
| Quoted texts, attribute lists, escaping | `Octets`, `StrRepr`, `AttrList`, `StrEscape` |
| Template expressions | `CsExpr`, `CsGrammar`, `CsPrecedence`, `CsRows`, `CsLvalue` |
| Template blocks | `CsBlocks`, `CsReading` |
| Rendering and local variables | `CsScope`, `CsRender`, `CsScopeLaws`, `CsFuel`, `CsLocals`, `CsDataset` |
| What rendering prints | `CsCaching`, `CsOutput`, `CsRounds`, `CsBodies`, `CsReadOnly`, `CsTemplates`, `CsWhole` |
| Wildcard matching | `Wildmat`, `WildmatPatterns` |
| Fractions | `NumberTheory`, `Ratios`, `Fractions`, `Rational` |

Verify with `dafny verify dfyconfig.toml`.

Words are bit sequences, most significant bit first, of any width; a register is the low bits of a
word. Texts are character sequences that end where the C string has its terminator. Removed nodes
stay readable, as under garbage collection. The invariants of a dataset's nodes are `Named`,
`Nested`, `Levels`, `Indexed`, `Ended`, `Cached` and `Detached` in `HdfNodes`; together they say
that sibling names are unique, that an index holds exactly the listed children, that the last-child
pointer of a level that is not empty is right, and what a cached predecessor may be.

Facts about the code that its comments or its use do not suggest:

- A loop whose body assigns to the loop variable has no value for it from the next round on
  (`LoopVariableLost`, `AssigningLoop`): the assignment makes the local variable a string, and the
  end of the round frees that string.
- A macro's parameter is found exactly if its name has no dot and no earlier parameter has the same
  name (`ParameterFound`).
- Text that ends inside an open `with`, `def`, `loop` or `alt` is accepted (`EndComplains`,
  `WithMayStayOpen`).
- A set through links is rejected where a walk arrives if the value of a link on the way has an
  empty component (`SetAcceptsIff`); a link with an empty value is one (`EmptyLinkValue`).
- A set that starts below the top takes a link's value from where it started, a walk takes it from
  the top and also follows the start if that is a link. A value is read back exactly if the walk led
  to the node addressed before the set (`SetThenWalkIff`); it is when the name meets no link
  (`SetThenWalkDirect`), and not when the walk leaves what is below the start (`SetThenWalkAway`,
  `AwayWitness`).
- `#` is in no row of `OperatorOrder` and the lexer never makes it; if it did, the parser would
  drop the parentheses behind it (`NumberDropsParentheses`).
- An attribute with value `1` is written as a bare key and read back as the empty text
  (`AttrList.RoundTrip`).
- Escaping with an escape character beyond ASCII cannot be undone once something was escaped,
  since an unsigned octet never equals a negative `char` (`StrEscape.RoundTrip`).
- Comparing a fraction with an integer is wrong exactly for fractions just below a negative integer
  (`LessIntExact`, `GreaterIntExact`, `LessIntFails`).

## Model

| member | source | states |
|---|---|---|
| `CrcRegister.StepsLinear` | libs/boost/crc.hpp:727-745 | Division steps are linear over GF(2) in register and message together |
| `CrcRegister.StepsOwnBits` | libs/boost/crc.hpp:727-745 | Feeding a register its own leading bits cancels every subtraction: only the shift is left |
| `CrcRegister.StepsAbsorb` | libs/boost/crc.hpp:942-963 | Why a lookup table is allowed: a message fed to a register leaves what the message mixed with the register's leading bits leaves in an empty register, xored with the shifted register |
| `CrcPolynomial.DivisionUnique` | libs/boost/crc.hpp:727-745 | Quotient and remainder of polynomials over GF(2) are determined by dividend and divisor |
| `CrcPolynomial.StepsAreRemainder` | libs/boost/crc.hpp:727-766 | For every register start R and bit string m, the bits left are the remainder of m·x^Bits + R·x^length modulo x^Bits + truncated polynomial, and no other word is |
| `CrcPolynomial.AugStepsAreRemainder` | libs/boost/crc.hpp:1043-1072 | The augmented register is the remainder of its start value followed by the message, and no other word is |
| `CrcPolynomial.AugmentedAgrees` | libs/boost/crc.hpp:1043-1072 | A message with Bits zero bits appended leaves in the augmented form what the message alone leaves in the plain form |
| `CrcPolynomial.AugmentedSelfCheck` | libs/boost/crc.hpp:1043-1072 | A message followed by its own plain CRC leaves zero in the augmented form |
| `CrcPolynomial.AugStepsAbsorb` | libs/boost/crc.hpp:1061-1069 | Several augmented steps at once through the plain form's table |
| `CrcMessage.WordStepIsStep` | libs/boost/crc.hpp:727-745 | The word-level step (mix in the bit, shift, xor) is one division step on the significant bits; junk above the width never reaches them |
| `CrcMessage.Reflect` | libs/boost/crc.hpp:307-326 | The shifting loop reverses exactly the low bits of the word |
| `CrcMessage.AugmentedMessages` | libs/boost/crc.hpp:1043-1072 | On bytes, for widths that are multiples of 8: width/8 zero bytes appended give the plain CRC, the big-endian CRC bytes appended give zero |
| `CrcMessage.MessageBit` | libs/boost/crc.hpp:769-793 | Which bit of which byte is divided when: byte after byte, from the low end of each if the input is reflected, from the high end otherwise |
| `CrcBasic.Basic.ProcessBit` | libs/boost/crc.hpp:725-745 | One bit is one division step of the significant bits |
| `CrcBasic.Basic.ProcessBits` | libs/boost/crc.hpp:748-766 | Only the low `count` bits of the byte are divided, upper ones first |
| `CrcBasic.Basic.ProcessByte` | libs/boost/crc.hpp:769-778 | A byte is divided in the order the input flag asks for |
| `CrcBasic.Basic.ProcessBlock` | libs/boost/crc.hpp:780-793 | A block is the division of all its bits in order, from any remainder |
| `CrcBasic.Basic.Checksum` | libs/boost/crc.hpp:811-820 | Bit k of the checksum, from the low end, is bit k of the final word xor bit k of the remainder, or its bit width - 1 - k if the output is reflected; all higher bits are 0 |
| `CrcOptimal.Table.Divide` | libs/boost/crc.hpp:499-524 | A table entry is what the eight bits of its dividend leave in an empty register |
| `CrcOptimal.Table.InitTable` | libs/boost/crc.hpp:487-532 | After the first call every slot, addressed reflected or not, holds the entry of the dividend that the engine will look up there; later calls change nothing |
| `CrcOptimal.XorStores` | libs/boost/crc.hpp:942-963 | The stored forms of two registers, reflected or not, xor to the stored form of their xor |
| `CrcOptimal.TableStep` | libs/boost/crc.hpp:954-962 | One table step of the stored word is eight division steps of the register, for both reflections and every width, also below 8 |
| `CrcOptimal.OutputReflection` | libs/boost/crc.hpp:983-992 | Reflecting the stored form exactly when the two flags differ gives the remainder in the order the output flag asks for |
| `CrcOptimal.Optimal.constructor` | libs/boost/crc.hpp:829-839 | The engine starts from the significant bits of the initial remainder with its table built |
| `CrcOptimal.Optimal.GetInterimRemainder` | libs/boost/crc.hpp:904-912 | The remainder with reflection undone and all junk masked |
| `CrcOptimal.Optimal.ProcessBlock` | libs/boost/crc.hpp:942-963 | The table-driven block is the same bit-by-bit division of the register |
| `CrcOptimal.Optimal.Checksum` | libs/boost/crc.hpp:983-992 | The same, bit by bit, from the stored word and its own reflection |
| `CrcOptimal.Crc` | libs/boost/crc.hpp:1025-1036 | The one-call form: bit by bit the output of the division of all message bits |
| `CrcOptimal.AugTableStep` | libs/boost/crc.hpp:1061-1069 | One byte of the augmented loop is eight augmented division steps |
| `CrcOptimal.AugmentedCrc` | libs/boost/crc.hpp:1040-1072 | The table loop equals the augmented division of the whole message from any start |
| `CrcOptimal.EnginesAgree` | libs/boost/crc.hpp:487-991 | For every width, polynomial, initial remainder, final xor, both flags and every message, both engines report the same interim remainder and checksum, though their words may differ in size and in the bits above the width |
| `HashMask.MaskKeepsLowDigits` | libs/cs/neo_hash.c:190-196 | Masking with size - 1 keeps exactly the low binary digits when size is a power of two |
| `HashMask.DoubledMask` | libs/cs/neo_hash.c:246-273 | Doubling either keeps a node's bucket or moves it up by the old size |
| `KeyedMap.GetEquivalent` | libs/cs/neo_hash.c:198-213 | Equivalent keys find the same value |
| `KeyedMap.PutGet` | libs/cs/neo_hash.c:80-114 | A get after a put of the finite map modulo the comparison |
| `KeyedMap.PutSize` | libs/cs/neo_hash.c:80-105 | Only a new key makes the map larger |
| `KeyedMap.DeleteLaws` | libs/cs/neo_hash.c:116-131 | A delete forgets exactly the keys equivalent to the one given |
| `HashTable.Table.constructor` | libs/cs/neo_hash.c:28-51 | A new table is empty and satisfies the invariant |
| `HashTable.Table.LookupNode` | libs/cs/neo_hash.c:190-217 | The slot found is the link to the one node with an equivalent key, or the empty slot at the end of the key's list; then no node anywhere holds the key |
| `HashTable.Table.Lookup` | libs/cs/neo_hash.c:107-114 | Reads the finite map |
| `HashTable.Table.HasKey` | libs/cs/neo_hash.c:133-141 | Holds exactly for keys of the finite map |
| `HashTable.Table.Insert` | libs/cs/neo_hash.c:80-105 | Contents become the old map with the key put; `num` grows by one, overwrite or not; the table doubles exactly when `num` would reach its size; the invariant (power of two, right buckets, no duplicates, nodes at most `num`, `size > num`) is kept |
| `HashTable.Table.Remove` | libs/cs/neo_hash.c:116-131 | Contents lose the key, the old value is the answer, `num` shrinks only if it was there |
| `HashTable.Table.Move` | libs/cs/neo_hash.c:256-268 | Unhooking one node and pushing it onto the list orig further up keeps the lists, the node set and the halfway invariant |
| `HashTable.Table.Split` | libs/cs/neo_hash.c:248-274 | One bucket split in place leaves both buckets right and the others alone |
| `HashTable.Table.Resize` | libs/cs/neo_hash.c:219-277 | Doubles unless there is room for one more, and re-establishes the bound; contents do not change |
| `HashTable.Table.OneNodePerKey` | libs/cs/neo_hash.c:190-217 | No two nodes have equivalent keys, and each is on the list `hashv & (size - 1)` selects |
| `HashTable.Run` | libs/cs/neo_hash.c:80-141 | Any run of insert, lookup, has-key and remove over a new table gives, operation by operation, the answers of the finite map |
| `HdfNames.PastedComponents` | libs/cs/neo_hdf.c:780-791 | Pasting a link's value in front of the rest of a name pastes the components |
| `HdfDir.AddKidWellFormed` | libs/cs/neo_hdf.c:700-737 | A new sibling under a new name keeps names unique and every path hanging off its parent |
| `HdfDir.TouchLookup` | libs/cs/neo_hdf.c:700-737 | Making a path exist adds exactly its missing prefixes, value-less and at the end of their levels, and changes no value |
| `HdfDir.CreateIsPlain` | libs/cs/neo_hdf.c:700-806 | Creating node by node equals making the whole path exist and writing its end |
| `HdfLinks.RestartAtLink` | libs/cs/neo_hdf.c:780-791 | A set that starts over at a link's value leads where following the link leads, at strictly smaller cost, and meets only ranked links again: starting over terminates |
| `HdfLinks.RankedFine` | libs/cs/neo_hdf.c:221-235 | With ranked links whatever starts below the root meets only lower-ranked links |
| `HdfLinks.ResolveConcat` | libs/cs/neo_hdf.c:203-298 | A walk can be interrupted at any component |
| `HdfLinks.ResolveGrown` | libs/cs/neo_hdf.c:203-298 | Wherever a dataset grows, a walk ends where it ended before and meets no new link |
| `HdfSets.SetLands` | libs/cs/neo_hdf.c:642-806 | From any node, an accepted set through any chain of links is a plain set of the node addressed, where links are followed up to the last component but not at it |
| `HdfSets.SetAcceptsIff` | libs/cs/neo_hdf.c:642-805 | A set is accepted if and only if its name has no empty component and neither has the value of any link it crosses before its last component |
| `HdfSets.AddressedStep` | libs/cs/neo_hdf.c:738-805 | The node addressed, component by component: a link in the middle starts over at its value |
| `HdfSets.SetReadsBack` | libs/cs/neo_hdf.c:221-294 | For the names that are accepted: unless the node addressed is a link, a value set through any chain of links is found again by resolving the same name |
| `HdfSets.SetReadsBackIff` | libs/cs/neo_hdf.c:203-298 | From any node: a walk of the name, which takes links from the top, reads the value set back if and only if it led to the node addressed before the set |
| `HdfSets.SetReadsBackDirect` | libs/cs/neo_hdf.c:203-298 | From any node, a set whose name meets no link is read back by a walk, whatever links there are elsewhere |
| `HdfSets.LinkFromBelow` | libs/cs/neo_hdf.c:780-791 | Where a walk of the name leaves what is below the start of the set, the value is stored but not read back |
| `HdfSets.BelowWitness` | libs/cs/neo_hdf.c:780-791 | A dataset of three nodes, one a link, where a set from below and a walk of the same name part |
| `HdfSets.SetRejected` | libs/cs/neo_hdf.c:642-806 | A rejected set has made part of a path, value-less, and nothing else |
| `HdfSets.SetSound` | libs/cs/neo_hdf.c:642-808 | Any set, also of a link, accepted or not, leaves a well-formed dataset with everything that was there |
| `HdfSets.SetKeepsRanks` | libs/cs/neo_hdf.c:642-808 | A set that overwrites no link, accepted or not, keeps names unique and links ranked, for walks and for sets from any node, so the next one terminates too |
| `HdfPending.RankedReady` | libs/cs/neo_hdf.c:642-806 | With ranked links every name can be set from any node: what a set asks for on its way is always met |
| `HdfLinks.PartKeepsRanks` | libs/cs/neo_hdf.c:933-1005 | Taking nodes away or reordering them keeps links ranked |
| `HdfSets.EmptyLinkValue` | libs/cs/neo_hdf.c:780-804 | A link whose value is empty is walked to the root, but no set gets through it, whatever the name behind it |
| `HdfLaws.SetThenGet` | libs/cs/neo_hdf.c:642-808 | Link-free: a set of a proper name is accepted, a get finds the value, every other existing path keeps its value, and what is new lies on the way, value-less, with only the next component below |
| `HdfLaws.LinkFreeResolve` | libs/cs/neo_hdf.c:203-298 | Link-free: a name addresses exactly the path it spells |
| `HdfLaws.RemoveThenGet` | libs/cs/neo_hdf.c:933-1005 | Link-free: after a removal a name finds nothing exactly if it found nothing before or passes the removed node, and else the old value; a later set of the removed path makes it anew, without its descendants and last in its level, whose other names keep their order |
| `HdfLaws.RemoveKeepsWalks` | libs/cs/neo_hdf.c:933-1005 | With links: what a walk finds after a removal is what it found before, and links stay ranked |
| `HdfLaws.ReorderWellFormed` | libs/cs/neo_hdf.c:898-931 | Any permutation of one level keeps the dataset well-formed |
| `HdfLaws.ReorderKeepsWalks` | libs/cs/neo_hdf.c:898-931 | A sort changes what no walk finds, also through links, and keeps links ranked |
| `HdfWalk.RankedWalkFine` | libs/cs/neo_hdf.c:221-235 | With ranked links the walk's termination condition always holds |
| `HdfWalk.ResolveStep` | libs/cs/neo_hdf.c:236-296 | One round of the walk's loop, in terms of where the whole walk ends |
| `HdfReadBack.SetAccepted` | libs/cs/neo_hdf.c:579-808 | Exactly the names without empty components, through links without any, are accepted by a set |
| `HdfReadBack.SetThenWalkIff` | libs/cs/neo_hdf.c:203-298 | By name, from any node, itself a link or not: a walk of an accepted name reads the value back if and only if it led to the node addressed before the set |
| `HdfReadBack.SetThenWalk` | libs/cs/neo_hdf.c:203-298 | From the top, through any links: an accepted name is stored, and a walk of the same name returns that node with the value, unless the node addressed is itself a link |
| `HdfReadBack.SetThenWalkDirect` | libs/cs/neo_hdf.c:203-298 | The same from any node that is not a link, for a name that meets no link |
| `HdfReadBack.SetThenWalkAway` | libs/cs/neo_hdf.c:221-235 | Where the walk, following the link of the start itself too, leaves what is below the start, the value is not read back |
| `HdfReadBack.AwayWitness` | libs/cs/neo_hdf.c:221-235 | One dataset with both: a name through a link from below, and a name from a node that is a link |
| `HdfTree.Dataset.constructor` | libs/cs/neo_hdf.c:172-192 | A new dataset satisfies every invariant and is empty |
| `HdfTree.Dataset.SearchList` | libs/cs/neo_hdf.c:680-689 | The plain list walk finds the one child of that name, its predecessor and its place |
| `HdfTree.Dataset.CacheHit` | libs/cs/neo_hdf.c:654-665 | Whenever the cache test passes on a node with the wanted name, that node is the one the list walk finds, even if the cached predecessor was removed since |
| `HdfTree.Dataset.FindForSet` | libs/cs/neo_hdf.c:654-698 | Cache, index and list all find the same child; where there is none, the predecessor returned is the last child |
| `HdfTree.Dataset.FindChild` | libs/cs/neo_hdf.c:244-272 | The walk's search, by index or list, finds the one child of that name |
| `HdfTree.Dataset.Append` | libs/cs/neo_hdf.c:702-723 | A new node goes to the end of its level; every invariant but the level's index is kept |
| `HdfTree.Dataset.HashLevel` | libs/cs/neo_hdf.c:561-577 | The index built from the list holds exactly the listed children |
| `HdfTree.Dataset.AddChild` | libs/cs/neo_hdf.c:702-736 | The index is kept or built with the new node: all invariants hold and the dataset has one more kid |
| `HdfTree.Dataset.Overwrite` | libs/cs/neo_hdf.c:738-779 | Only value and link flag of the one entry change |
| `HdfTree.Dataset.SetBelow` | libs/cs/neo_hdf.c:642-808 | The loop over the components, with its restarts at links, ends with the outcome of the set |
| `HdfTree.Dataset.SetValue` | libs/cs/neo_hdf.c:579-808 | From every state satisfying the invariants, hashed, cached or neither, and from any node, a set has exactly the outcome specified, accepted or not, and keeps all invariants; it terminates whenever the links on its way are ranked |
| `HdfTree.Dataset.Walk` | libs/cs/neo_hdf.c:203-298 | The walk, following links recursively, returns the node the specification resolves the name to, or none |
| `HdfTree.Dataset.GetValue` | libs/cs/neo_hdf.c:317-326 | The value of the node walked to, or the default |
| `HdfTree.Dataset.UnhookPointers` | libs/cs/neo_hdf.c:985-1003 | Unhooking the first, a middle or the last child leaves the remaining list and the last-child pointer right |
| `HdfTree.Dataset.RemoveTree` | libs/cs/neo_hdf.c:933-1005 | Exactly the path and its descendants go, in entries and in nodes; index, last child and caches stay right |
| `HdfTree.Dataset.Relink` | libs/cs/neo_hdf.c:917-928 | Stringing a list back together makes it the level, in that order |
| `HdfTree.Dataset.SortObj` | libs/cs/neo_hdf.c:898-931 | For any order the comparison picks, the level is reordered, nothing else changes, and every invariant is kept |
| `HdfLines.StripAround` | libs/cs/neo_str.c:38-48 | Stripping a trimmed text with white space around it gives the text |
| `HdfLines.StripParts` | libs/cs/neo_str.c:38-48 | Every text is white space, its stripped text, which is trimmed, and white space |
| `StrStrip.StripInPlace` | libs/cs/neo_str.c:38-48 | In the buffer: the text from the returned start up to the new terminator is the stripped text, and nothing before or behind changes |
| `HdfLines.ParseWritten` | libs/cs/neo_hdf.c:1553-1583 | A written value line is read as the assignment it was written for |
| `HdfLines.ParseLinked` | libs/cs/neo_hdf.c:1598-1610 | A written link line is read as the link it was written for |
| `HdfLines.ParseOpening` | libs/cs/neo_hdf.c:1611-1635 | A written opening line is read as opening that node |
| `HdfLines.ParseAssign` | libs/cs/neo_hdf.c:1522-1583 | name = value, with white space before the name, around the sign and behind the value, is read as that assignment |
| `HdfLines.ParseLink` | libs/cs/neo_hdf.c:1598-1610 | The same for name : value, unless the value starts with an equals sign |
| `HdfLines.ParseCopy` | libs/cs/neo_hdf.c:1584-1597 | The same for name := source |
| `HdfLines.ParseDeeper` | libs/cs/neo_hdf.c:1611-1635 | A brace behind a name opens the node, whatever follows the brace |
| `HdfLines.ParseOthers` | libs/cs/neo_hdf.c:1553-1570 | A name followed by a bracket, an end mark, nothing, or anything else |
| `HdfLines.ParseNameless` | libs/cs/neo_hdf.c:1516-1552 | White space and comments say nothing; a closing brace ends a block exactly if only white space follows it |
| `HdfLines.WrittenLine` | libs/cs/neo_hdf.c:1322-1349 | A line written into a text is the line cut out of it there |
| `HdfLines.TakeNext` | libs/cs/neo_hdf.c:1515-1575 | The scanning loops agree with the specification of what a line says |
| `HdfText.StoresSound` | libs/cs/neo_hdf.c:1571-1610 | Storing a line's value, copy or link, accepted or not, keeps any dataset well-formed |
| `HdfByHand.ReadWritten` | libs/cs/neo_hdf.c:1506-1706 | Any text of comments, blank lines, values, copies and nested blocks, with white space wherever the format allows it, read into a dataset without links, gives each name below its block its value, each copy the value its source had from the top at that point, and each block its node, in the order of the text |
| `HdfDump.CopyStep` | libs/cs/neo_hdf.c:1092-1206 | Copying one child with what is below it, then the later ones, copies them all in order |
| `HdfDump.TextSpelled` | libs/cs/neo_hdf.c:1092-1206 | What is written for one child, character by character: value line with = or :, then its children between braces |
| `HdfDump.ReadBlock` | libs/cs/neo_hdf.c:1092-1206 | The block written for a child is read as the copying of what is below it |
| `HdfDump.ReadBack` | libs/cs/neo_hdf.c:1506-1706 | Inside any text, and into a dataset with any links, what was written for the children of a node is read as copying them behind what is there, and reading goes on behind it |
| `HdfDump.RoundTrip` | libs/cs/neo_hdf.c:1092-1706 | Write then read is the identity: every path, value, link and order of children, wherever the links lead, for names of letters, digits and underscores, single-line trimmed values, links without children and a value on every leaf |
| `HdfFile.Dump` | libs/cs/neo_hdf.c:1092-1206 | The writer on the nodes appends exactly the compact text |
| `HdfFile.ReadString` | libs/cs/neo_hdf.c:1506-1706 | The reader on the nodes, storing, copying, linking and opening blocks, ends as specified with the dataset specified, and keeps every heap invariant; it terminates whenever the links its names cross are ranked |
| `HdfFile.CopyDataset` | libs/cs/neo_hdf.c:1092-1706 | Dumping a dataset of nodes and reading the text into a new one gives nodes that mean the same, whatever was indexed or cached |
| `StrRepr.ReprFill` | libs/cs/neo_str.c:537-597 | The second pass fills exactly the length counted by the first, with the quoted form |
| `StrRepr.ReprAlloc` | libs/cs/neo_str.c:527-598 | The same, and NULL for no text |
| `StrRepr.BodySize` | libs/cs/neo_str.c:537-553 | The first pass counts the length of the quoted form |
| `StrRepr.BodyPrintable` | libs/cs/neo_str.c:560-594 | The quoted form is printable ASCII throughout |
| `StrRepr.ScanQuoted` | libs/cs/neo_hdf.c:1398-1447 | The cursor loop, taking octal digits one at a time modulo an octet, agrees with the specification |
| `StrRepr.WrittenRead` | libs/cs/neo_hdf.c:1401-1426 | What is written for one character is read as that character, whatever follows |
| `StrRepr.WrittenTable` | libs/cs/neo_str.c:560-594 | What is written for each octet: letters for line feed, tab and return, a backslash before quotes and backslashes, itself if printable, otherwise three octal digits that make up its number |
| `StrRepr.ReadEscape` | libs/cs/neo_hdf.c:1420-1427 | What a backslash before a character that is no digit means |
| `StrRepr.ReadOctal` | libs/cs/neo_hdf.c:1403-1419 | One to three digits behind a backslash are read in base eight, modulo an octet |
| `StrRepr.ReprReadBack` | libs/cs/neo_hdf.c:1398-1447 | Every text is read back from its quoted form, with reading stopped right behind the closing quote |
| `AttrList.WriteList` | libs/cs/neo_hdf.c:1126-1156 | The writing loop produces the bracketed list |
| `AttrList.Parse` | libs/cs/neo_hdf.c:1367-1504 | The cursor loop collects exactly the attributes specified, and fails exactly where specified |
| `AttrList.DumpRead` | libs/cs/neo_hdf.c:1126-1504 | A written list with alphanumeric keys is read as it was, except that values written as bare keys come back empty |
| `AttrList.BareValue` | libs/cs/neo_hdf.c:1452-1462 | A hand-written key = value, with any white space, is that attribute; the value ends before a blank, a comma or the bracket |
| `AttrList.QuotedValue` | libs/cs/neo_hdf.c:1398-1447 | The same for a quoted value, which stands for the text it quotes |
| `AttrList.KeyAlone` | libs/cs/neo_hdf.c:1464-1467 | A key alone has the empty value |
| `AttrList.BetweenTwo` | libs/cs/neo_hdf.c:1490-1496 | Between two attributes: white space with or without one comma |
| `AttrList.RoundTrip` | libs/cs/neo_hdf.c:1133-1147 | The list comes back exactly when no value is the text 1 |
| `StrEscape.EscapedSize` | libs/cs/neo_str.c:434-455 | The first pass counts exactly what the second writes |
| `StrEscape.Escape` | libs/cs/neo_str.c:426-500 | The allocated buffer is exactly the escaped text and its terminator |
| `StrEscape.Unescape` | libs/cs/neo_str.c:502-525 | In place: the front of the buffer becomes the decoded text with a terminator, the write index never passing the read index, and nothing behind changes |
| `StrEscape.RoundTrip` | libs/cs/neo_str.c:426-525 | The original comes back if and only if the escape character is ASCII or no octet had to be escaped |
| `StrEscape.NothingBare` | libs/cs/neo_str.c:463-497 | Where a character of the escape set stands in the output, it is one of the three octets of an escape |
| `StrEscape.EscapedAt` | libs/cs/neo_str.c:463-497 | Wherever it stands, an ASCII octet that is the escape character or listed becomes the escape character and two capital hexadecimal digits of its number; every other octet stays |
| `StrEscape.UnescapedAt` | libs/cs/neo_str.c:502-525 | The escape character and two hexadecimal digits, capital or small, are read as the octet of that number |
| `StrEscape.UnescapedOther` | libs/cs/neo_str.c:502-525 | What does not start such a code stays as it is |
| `CsExpr.SkipClosed` | libs/cs/csparse.c:1084-1122 | What the scan looks at after skipping closed parentheses and brackets |
| `CsExpr.ScanLevel` | libs/cs/csparse.c:1079-1213 | The right-to-left loop finds what the specification's scan of one operator level finds |
| `CsExpr.FindOperator` | libs/cs/csparse.c:1076-1215 | The loosest level with an operator, and the place of its rightmost one |
| `CsExpr.RearrangeForCall` | libs/cs/csparse.c:2685-2719 | The comma list is unlinked into source order and counted |
| `CsExpr.ParseExpr` | libs/cs/csparse.c:1017-1289 | The recursive parser with its loops equals its functional form, on strictly shorter slices |
| `CsGrammar.OpenOver` | libs/cs/csparse.c:1084-1122 | A scan for an opening mark passes over the tokens of any tree |
| `CsGrammar.ScanOver` | libs/cs/csparse.c:1079-1213 | A scan of one level passes over any tree that shows no operator of it, and stops at the rightmost one otherwise |
| `CsPrecedence.ParseYield` | libs/cs/csparse.c:1017-1289 | The tokens of every canonical tree are parsed to that tree: the parser is complete |
| `CsPrecedence.ParseSound` | libs/cs/csparse.c:1017-1289 | Whatever is accepted is a canonical tree whose tokens in order are exactly the list: the parser is sound |
| `CsPrecedence.ParseIffYield` | libs/cs/csparse.c:1017-1289 | A token list is parsed to a tree if and only if the tree is canonical and spelled by the list |
| `CsPrecedence.Precedence` | libs/cs/csparse.c:941-952 | In an accepted tree no operand is rooted at a looser operator, and no right operand at an equally loose one |
| `CsRows.TwoOperators` | libs/cs/csparse.c:941-952 | For the table of operators written out row by row: a p b q c groups to the right exactly if q stands in a later row than p |
| `CsRows.PrefixOperator` | libs/cs/csparse.c:1130-1160 | A prefix operator takes the binary operation behind it exactly if that stands in a later row |
| `CsRows.CommaLoosest` | libs/cs/csparse.c:941-952 | The comma is looser than every operator and groups to the left |
| `CsRows.Bracketed` | libs/cs/csparse.c:1084-1122 | Parentheses and subscripts bind what is in them against any operator outside |
| `CsLvalue.LvalueSame` | libs/cs/csparse.c:1123-1129 | What is accepted as the left side of an assignment is parsed to the same tree as elsewhere |
| `CsLvalue.LvalueIff` | libs/cs/csparse.c:1123-1129 | The exact condition for a left side: it parses, and its tree is made of arguments, dots and subscripts only |
| `CsBlocks.RunItem` | libs/cs/csparse.c:470-530 | The commands of one nested item, run from any state, hang its nodes where the next node goes, restore the stack and touch nothing older |
| `CsBlocks.RunRest` | libs/cs/csparse.c:2297-2345 | The same for the rest of an if: elif and else at `case_1` of the condition before, the next command off the opening node |
| `CsBlocks.RunItems` | libs/cs/csparse.c:439-543 | The same for any list of items |
| `CsReading.BuildsTree` | libs/cs/csparse.c:439-557 | The commands that spell nested items are accepted, leave no block open, and the pointers built are the tree of a recursive reading |
| `CsReading.AcceptedIsReading` | libs/cs/csparse.c:439-557 | Every accepted sequence with all blocks closed spells nested items, and the tree built is theirs |
| `CsReading.EndComplains` | libs/cs/csparse.c:545-556 | The end is complained about exactly when an if or an each is not closed as often as opened; an accepted text is closed exactly when that also holds of with, def, loop and alt |
| `CsReading.WithMayStayOpen` | libs/cs/csparse.c:545-556 | An open `with` is indeed accepted |
| `CsReading.Parser.ElifParse` | libs/cs/csparse.c:2311-2328 | The new condition hangs off the one before it, and the entry remembers the node that opened the block |
| `CsReading.Parser.Dispatch` | libs/cs/csparse.c:479-527 | One command is one step of the specification, or is refused with nothing changed |
| `CsReading.Parser.ParseString` | libs/cs/csparse.c:412-560 | The builder's final state is that of the run, accepted exactly when every step and the end check are |
| `CsScope.LoopBounds` | libs/cs/csparse.c:3172-3183 | The number of rounds is never negative, and round k happens exactly when start + k·step is not past end, in either direction; none for step 0 |
| `CsScopeLaws.RenderKeepsScope` | libs/cs/csparse.c:3219-3230 | Rendering any tree, to success or error, leaves the list of local variables as found: same bindings in the same order, at most numbers or strings turned into strings |
| `CsScopeLaws.RenderKeepsTexts` | libs/cs/csparse.c:713-722 | The text cached in a number is always that number's own |
| `CsScopeLaws.ArgumentValue` | libs/cs/csparse.c:2825-2930 | Inside a macro a parameter is found exactly if its name has no dot and no earlier parameter has it, and then has the value its argument has in the caller's scope, also when parameters shadow names of the caller |
| `CsScopeLaws.ParameterFound` | libs/cs/csparse.c:564-586 | The exact condition on the name for a parameter to be found |
| `CsScopeLaws.NameInMacro` | libs/cs/csparse.c:564-586 | What any name means in a macro: below the node of the parameter before its dot, or that parameter's text or number, and otherwise what it means to the caller |
| `CsScopeLaws.ArgumentMeans` | libs/cs/csparse.c:2872-2902 | A name passed as an argument is bound to what it means to the caller, local text, number or node |
| `CsDataset.DatasetLawful` | libs/cs/csparse.c:588-732 | The walks of a dataset with ranked links answer as rendering assumes: the value under a name is that of the node under it |
| `CsDataset.DatasetArgument` | libs/cs/csparse.c:2825-2930 | So over a dataset a parameter that is found has the value of its argument, with nothing assumed of the dataset |
| `CsDataset.ResolveNoLink` | libs/cs/neo_hdf.c:291-297 | A walk of a name never ends at a link |
| `CsScopeLaws.RoundVariable` | libs/cs/csparse.c:3185-3205 | Every round finds the variable bound to its own number, `first` and `last` set on the end rounds only |
| `CsScopeLaws.RoundShows` | libs/cs/csparse.c:3185-3205 | The variable reads as its number in a round exactly when it is still a number; after an assignment to it, it reads as nothing |
| `CsScopeLaws.RenderKinds` | libs/cs/csparse.c:617-684 | If neither the template nor a macro assigns to x, every x stays the kind of variable it was |
| `CsScopeLaws.LoopShowsNumbers` | libs/cs/csparse.c:3134-3212 | In a loop whose variable nobody assigns to, the rounds show start, start + step, ... and nothing else |
| `CsFuel.FuelIrrelevant` | libs/cs/csparse.c:3219-3230 | A rendering that ends within its fuel ends the same way with any more: the fuel decides nothing but when to give up on endless recursion |
| `CsCaching.RenderAlike` | libs/cs/csparse.c:713-722 | Whether a number has its text cached is never seen: renderings that start alike but for that end alike, with the same output, dataset and error |
| `CsOutput.NameParts` | libs/cs/csparse.c:564-586 | A name is looked up by what stands before its first dot |
| `CsOutput.LineAdds` | libs/cs/csparse.c:2101-2127 | Fixed text and shown values, one after the other, add exactly their texts in order: a text itself, a number as converted, a name its value or nothing |
| `CsOutput.ChainRuns` | libs/cs/csparse.c:2274-2295 | A chain of conditions of any length does what the arm of the least condition that holds does, or the else arm; a number holds if it is not 0, a text or value if it is not empty and does not read as 0 |
| `CsOutput.IfRuns` | libs/cs/csparse.c:2274-2295 | The same for an if with what follows it |
| `CsOutput.IfAdds` | libs/cs/csparse.c:2274-2295 | With lines for arms, the output grows by exactly the text of the arm taken |
| `CsOutput.ChainRaises` | libs/cs/csparse.c:2280-2281 | A condition that raises an error, reached behind conditions that do not hold, stops the template with nothing added |
| `CsRounds.EachRounds` | libs/cs/csparse.c:2436-2459 | For children that the rounds leave alone, each makes one round per child, in their order |
| `CsRounds.EachRoundBinds` | libs/cs/csparse.c:2436-2459 | Whatever the body does, round j finds the variable and all names below it bound to the j-th child, marked first in round 0 only |
| `CsRounds.EachAdds` | libs/cs/csparse.c:2414-2469 | Over a line, the output grows by the texts of the line for each child in order |
| `CsRounds.EachShows` | libs/cs/csparse.c:2414-2469 | Over a body that shows the variable, the output grows by the values of the children in order |
| `CsReadOnly.RenderReads` | libs/cs/csparse.c:3219-3230 | A template without assignments, in itself and in the macros, leaves the dataset as it was |
| `CsReadOnly.EachReads` | libs/cs/csparse.c:2436-2459 | So each over a body that assigns nothing makes one round per child |
| `CsBodies.WithAdds` | libs/cs/csparse.c:2471-2504 | with over a line adds the text the line has where the name stands for the node |
| `CsBodies.WithShows` | libs/cs/csparse.c:2471-2504 | What is below the variable of with is what is below the node |
| `CsBodies.NothingThere` | libs/cs/csparse.c:2422-2466 | Where a name leads to no node, each and with do nothing |
| `CsBodies.RangeMeans` | libs/cs/csparse.c:3145-3170 | One argument of a loop is its end, from 0 in steps of 1; two are start and end; the third is the step |
| `CsBodies.LoopAdds` | libs/cs/csparse.c:3134-3212 | A loop over a line adds its text for start, start + step and so on, exactly while not past end |
| `CsBodies.LoopShows` | libs/cs/csparse.c:3134-3212 | A loop that shows its variable prints those numbers in order |
| `CsBodies.CallAdds` | libs/cs/csparse.c:2825-2930 | A call of a macro that is a line adds the text of the line with the parameters bound |
| `CsBodies.CallShows` | libs/cs/csparse.c:2825-2930 | A macro that shows a parameter prints what showing the argument would print |
| `CsBodies.SetLocal` | libs/cs/csparse.c:656-674 | Assigning to a local number or text makes it that text and changes no other name |
| `CsBodies.SetBelowLocal` | libs/cs/csparse.c:674-678 | Assigning below a local number or text does nothing |
| `CsBodies.SetDataset` | libs/cs/csparse.c:627-653 | Assigning below a local node sets the dataset below that node, where the name then looks |
| `CsBodies.SetTop` | libs/cs/csparse.c:681-683 | Assigning to what is not local sets the dataset from the top |
| `CsBodies.SetShows` | libs/cs/csparse.c:2975-3030 | set and then a shown name print the value assigned |
| `CsTemplates.DatasetEach` | libs/cs/csparse.c:2414-2469 | Over a dataset with ranked links, each with a body that shows its variable prints the values of the listed children of the node, or of the node its link leads to, in order; a child that is a link shows the value where it leads |
| `CsTemplates.DatasetSet` | libs/cs/csparse.c:617-684 | Over a dataset, after an assignment to an accepted name that is not local the name has the value assigned, through any links |
| `CsWhole.TemplateIf` | libs/cs/csparse.c:439-557 | From commands to output: those of an if with any elifs and else, and of what follows, build a tree that renders the body of the first condition that holds, or the else part, and then what follows |
| `CsWhole.TemplateEach` | libs/cs/csparse.c:439-557 | From commands to output: those of an each whose body prints build a tree that adds the text of the body for each child in order |
| `CsScopeLaws.LoopVariableLost` | libs/cs/csparse.c:3185-3205 | Once a round leaves the loop variable a string, it has no value in any later round |
| `CsScopeLaws.AssigningLoop` | libs/cs/csparse.c:3185-3205 | A loop whose body starts by assigning a text to its variable has no value for it in any round but the first |
| `CsLocals.Renderer.FindMap` | libs/cs/csparse.c:564-586 | The chain search finds the innermost binding of the name's head |
| `CsLocals.Renderer.LookupObj` | libs/cs/csparse.c:588-615 | The node a name stands for, through local variables |
| `CsLocals.Renderer.LookupValue` | libs/cs/csparse.c:686-732 | The value a name stands for, with a number's text kept in its map |
| `CsLocals.Renderer.SetVar` | libs/cs/csparse.c:617-684 | A local number or string becomes the string, otherwise the dataset is set |
| `CsLocals.Renderer.EachEval` | libs/cs/csparse.c:2414-2469 | One round for each child in order, with one map rebound, and the chain restored |
| `CsLocals.Renderer.WithEval` | libs/cs/csparse.c:2471-2504 | The body with the variable bound to the node, and the chain restored |
| `CsLocals.Renderer.LoopEval` | libs/cs/csparse.c:3134-3212 | The loop with its map, as specified, and the chain restored |
| `CsLocals.Renderer.CallEval` | libs/cs/csparse.c:2825-2930 | All arguments evaluated before any map is installed; the chain restored on every way out |
| `CsLocals.Renderer.Render` | libs/cs/csparse.c:3219-3230 | The renderer over linked maps does what the functional evaluator does, and afterwards `locals` is the very chain found, link by link |
| `Wildmat.MatchClass` | libs/cs/wildmat.c:88-107 | The class loop decides membership, ranges, a leading `]` or `-` and reversal included, and finds the closing bracket |
| `Wildmat.StarDecided` | libs/cs/wildmat.c:80-87 | A star loop that stops early with true or ABORT has decided all places a match could start |
| `Wildmat.MatchStar` | libs/cs/wildmat.c:77-87 | Never FALSE; true exactly if the text matches, ABORT only if no suffix does |
| `Wildmat.DoMatch` | libs/cs/wildmat.c:58-116 | True exactly if the text matches the pattern declaratively; ABORT only if no suffix of the text does |
| `Wildmat.Wildmat` | libs/cs/wildmat.c:186-207 | True exactly if the text matches, for every text and every pattern with closed classes, for plain and case-folding comparison |
| `WildmatPatterns.WrittenMeans` | libs/cs/wildmat.c:58-116 | A written pattern of plain and quoted characters, question marks, stars and classes, with ranges, reversal and a leading bracket or dash, is accepted and matches exactly the texts its pieces stand for |
| `Rational.GcdLoop` | libs/boost/rational.hpp:55-80 | The two-remainder loop ends with the specification's divisor |
| `Rational.GcdMeaning` | libs/boost/rational.hpp:55-80 | The divisors of the result are exactly the common divisors of the arguments, whatever their signs |
| `NumberTheory.CoprimeIffGcd` | libs/boost/rational.hpp:181-185 | Coprime parts are parts whose gcd is 1, as the representation note asks |
| `Rational.Lcm` | libs/boost/rational.hpp:82-97 | The non-negative number whose multiples are exactly the common multiples, zeros included |
| `Fractions.LowestUnique` | libs/boost/rational.hpp:414-417 | A value has one fraction in lowest terms |
| `Fractions.SumReduced` | libs/boost/rational.hpp:219-232 | Dividing by gcd(t, g) only, the sum is in lowest terms and is the sum, also when it cancels to zero |
| `Fractions.ProductReduced` | libs/boost/rational.hpp:274-278 | The crosswise reduced product is in lowest terms and is the product |
| `Fractions.LessReduced` | libs/boost/rational.hpp:371-375 | The reduced cross products compare as the full ones |
| `Rational.Rational.Normalize` | libs/boost/rational.hpp:427-451 | Lowest terms with the same value, or refusal of a zero denominator with nothing changed |
| `Rational.Rational.Assign` | libs/boost/rational.hpp:189-195 | The fraction n/d in lowest terms; a zero denominator is refused with the parts already stored |
| `Rational.Rational.FromFraction` | libs/boost/rational.hpp:134-136 | The three constructors' results; none for a zero denominator |
| `Rational.Rational.Add` | libs/boost/rational.hpp:214-247 | Exactly the sum, in lowest terms, also when the argument is the object itself |
| `Rational.Rational.Subtract` | libs/boost/rational.hpp:248-265 | Exactly the difference, in lowest terms, also of the object and itself |
| `Rational.Rational.Multiply` | libs/boost/rational.hpp:267-280 | Exactly the product, in lowest terms |
| `Rational.Rational.Divide` | libs/boost/rational.hpp:282-309 | Exactly the quotient, in lowest terms with positive denominator; refused exactly for a zero divisor, with nothing changed |
| `Rational.Rational.AddInt` | libs/boost/rational.hpp:312-317 | Exactly the sum with an integer |
| `Rational.Rational.SubtractInt` | libs/boost/rational.hpp:319-324 | Exactly the difference |
| `Rational.Rational.MultiplyInt` | libs/boost/rational.hpp:326-331 | Exactly the product |
| `Rational.Rational.DivideInt` | libs/boost/rational.hpp:333-338 | Exactly the quotient, refused for zero |
| `Rational.Rational.Increment` | libs/boost/rational.hpp:342-347 | One more, still in lowest terms |
| `Rational.Rational.Decrement` | libs/boost/rational.hpp:350-355 | One less, still in lowest terms |
| `Rational.Rational.Negated` | libs/boost/rational.hpp:206-210 | The opposite value |
| `Rational.Rational.Less` | libs/boost/rational.hpp:359-377 | With its sign shortcuts, exactly num·r.den < r.num·den, and exactly the order of the values |
| `Rational.EqualIffSameValue` | libs/boost/rational.hpp:413-417 | Componentwise equality is equality of the values |
| `Rational.TotalOrder` | libs/boost/rational.hpp:359-417 | Exactly one of below, equal, above; below is transitive |
| `Rational.LessIntExact` | libs/boost/rational.hpp:379-401 | The comparison with an integer by truncated division is right if and only if the fraction is not just below a negative integer |
| `Rational.GreaterIntExact` | libs/boost/rational.hpp:403-411 | The same for the opposite comparison |
| `Rational.LessIntFails` | libs/boost/rational.hpp:379-411 | -3/2 is below -1, and both comparisons say otherwise |

## Left out

- Integer widths: `num`, `size`, lengths, the numbers of templates and the parts of fractions are unbounded; only the words of the CRC engines, octets and octal escapes have their widths.
- Allocation failure, freeing and ownership flags: nodes are garbage collected, and `alloc` flags are kept only where rendering reads them.
- `ne_hash_next` (libs/cs/neo_hash.c:143-188).
- The hash table with pointer comparison instead of a callback: the callback given can be equality.
- HdfTree.Dataset.HashLevel: the index of a level is a map field; that a chained hash table is such a map is what `HashTable` proves. The compatibility of `hash_hdf_comp` with `hash_hdf_hash` is not modelled.
- HdfTree.Dataset.SetValue: requires that the links on the way of the name are ranked, since where links lead round in a circle the source does not return; a missing value is not stored at a link, whose value the source then reads through a null pointer.
- HdfTree.Dataset.SetBelow: requires ranked links on the way, as SetValue does.
- HdfTree.Dataset.SortObj: the order picked by the caller's comparison is any permutation; `qsort` itself is not modelled.
- Attributes on the nodes of a dataset: attribute lists are modelled as texts and lists (`AttrList`), not as part of `Hdf`; `_merge_attr` is not modelled.
- HdfFile.ReadString: a `<<` value or an attribute list ends the modelled reading with `Unknown`; `#include` is an error unless ignored, as in the source. The links its names cross have to be ranked, as for a set.
- HdfDump.RoundTrip: links with children are left out: the block written for them is read into the node the link leads to.
- HdfFile.Dump: requires values of one line; a value with a newline is written with an end mark chosen at random, which is not modelled. Neither are the pretty and dotted formats.
- AttrList.Parse: a backslash at the very end of the text ends the modelled reading with `Lost`, since the source then reads behind the end.
- StrEscape.Unescape: requires room for the terminator it writes; a null buffer is not modelled.
- `global_hdf`, the second dataset a variable may be looked up in (libs/cs/csparse.c:726-731).
- Tokenising, `strtol`, and the evaluation of expressions: an argument of a command is a text, a number, a name or an expression whose evaluation fails; what operators and functions compute is not modelled.
- CsLocals.Renderer.Render: the dataset is known only through looking up, setting and listing children, which are parameters. Rendering takes fuel for macros that call each other and for the children met by `each`; what ends within its fuel does not depend on it (`CsFuel.FuelIrrelevant`), and of a rendering that never ends the model says nothing.
- CsLocals.Renderer.SetVar: assigning to a part of a local text or number is ignored as in the source, which also leaves the name cut at its dot for later uses of the node; the cut is not modelled. Assigning a missing value to a local text, where the source copies a null pointer, ends in an error.
- The commands `evar`, `lvar`, `include`, `linclude` and `name` in rendering, and escaping of output; `alt` has no handler of its own and is rendered as an `if` that shows its argument (`CsWhole.NodeOf`).
- CsWhole.TemplateIf: how the text behind a command reads as an expression, a name or a list of arguments is a parameter.
- HdfByHand.ReadWritten: texts with links, attribute lists, `<<` values and `#include` lines, and datasets with links, are left to `HdfText.ReadLines`.
- CsReading.Parser.ParseString: starts from the commands of a text, with the literals between them; finding `<?cs` and `?>` and the arguments' own syntax errors are not modelled, nor are the checks for duplicate macro names.
- Patterns with an unclosed class in `wildmat`.
- Reading and writing fractions on streams, and `abs`.
- `libs/ews`, `libs/handlers`, `src`: sockets, threads, signals, handlers.
- File and stream input and output, date and random helpers, gettext, printf-style formatting, `ulist.c`, the growth of `STRING`.
