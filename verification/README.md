# AutoGentoo: a verified model

AutoGentoo is a package backend for Gentoo: C code for versions, packages and their indexes, and a Python dependency
resolver on top. This project models seven of its parts in Dafny and proves what they guarantee.

Each part has two layers. A model on values gives the operations as functions, and the laws are lemmas about them.
Where the program changes things in place, methods do the same over arrays, linked objects and fields, and their
contracts tie them to the functions.

| part | model on values | in place |
|---|---|---|
| the lookup table that issues ids | LutModel, LutIds, Ownership, References | Lut, Interning |
| the string hash and the chained map | Murmur, MapModel | Murmur, ChainedMap |
| versions and atoms | Versions, VersionOrder, VersionNumbers, VersionLetters, VersionSuffixes, VersionStars, AtomText | Versions, AtomReader |
| packages and the repository | PackageOrder, Grouping | Packages, Repository |
| REQUIRED_USE and USE flags | RequiredUse, Repair, UseModel, AtomRequirements, Vetoes | RequiredUse, SelectedEbuilds |
| the resolution session | DependencyContainers, ResolveModel, Regeneration, SessionOutcome, SessionDirt | Resolver |
| the server | Server | RequestQueue |

`Sequences`, `Options`, `UseFlags` and `Chains` are shared: filters and joins of sequences, an option type, USE flags,
and singly linked chains with their snapshots on values.

`dafny verify dfyconfig.toml` checks everything.

## How to read the model

- The hash is a parameter of both tables, so their laws hold for every hash function; Murmur is about the one in use.
- Data and objects are addresses (natural numbers), 0 for null. References are counted in a ledger.
- An exception or an error return is a case of a result datatype. `None` from a flag lookup stands for a KeyError.
- A version without components is the null version of an atom that names none. `Readable` says what the comparator can
  read at all: no empty text, no lone star, and padding within its 128 characters.
- `Plain` versions have components of one to nine digits and a revision below 2^31. Leading zeros and prefixes are
  allowed, letters and stars are not. The order laws are about them. VersionLetters and VersionNumbers say exactly what
  goes wrong outside. `Suffixed` versions, of any length, may also end in a letter; VersionSuffixes says exactly where
  their order breaks, which it never does among versions of one length. VersionStars is about versions with a star.
- The loader's contract asks that no hash has more than 65536 keys and that ebuilds of one package can be compared.
- `Emerge` in ResolveModel is what the resolver learns from outside: the metadata of an ebuild, and which ebuild an atom
  selects. A selection may depend on the parent and on everything selected and blocked before, may raise, and selects
  among a finite set of ebuilds. All else that a regeneration does is in the model.
- The server's queue is a sequence of request numbers; RequestQueue shows that the linked queue behaves as a sequence.
- The server's steps are the stretches of code between two points where another thread can interfere. A stop may come
  at any moment; what it wakes is covered by spurious wakeups.

## Where the program departs from its documentation

- `~` is documented to take every revision of a version (autogentoo/cportage/portage.h:50); no code reads the bit that
  sets it apart from `=`.
- The comment on conditionals in autogentoo/portage/resolve.py:254 belongs to a branch that cannot be reached: a
  conditional whose guard is not met counts as unsatisfied.
- autogentoo/hacksaw/map.h:61 says that the map grows when n reaches size times threshold; it grows up to two counts
  earlier (MapModel.GrowsAsDocumentedIff), and its n is only an upper bound (MapModel.CountDrifts).
- A resolver's container names its lists depend, run_depend, build_depend and post_depend; they are filled with bdepend,
  depend, rdepend and pdepend, in this order (autogentoo/portage/resolve.py:461-472).
- A requirement that a flag be switched is scheduled for the next flush (autogentoo/portage/resolve.py:542-550), but its
  hook raises at once unless the flag is there already; so a session that returns normally flushes nothing new
  (SessionOutcome.SessionChangesNoFlag).
- A list behind a USE condition is made ready to be evaluated (autogentoo/portage/resolve.py:305-355), but
  resolve_single returns nothing for it, so that it is never resolved (Regeneration.GuardedListIsPassedOver).
- Version order follows the shape of section 3.3 of the Package Manager Specification, but letters break it
  (VersionSuffixes.TransitiveIffNoCuts).

## Model

| member | source | states |
|---|---|---|
| `Lut.LookupTable.constructor` | autogentoo/hacksaw/lut.c:107-117 | A new table is empty and holds no references. |
| `LutIds.RunRefinesStore` | autogentoo/hacksaw/lut.c:119-191 | Over any run of insertions, overwrites and resizes the table stands for the simple map from key to entry in which a new key gets its hash and the number of keys under that hash as its id, and a known key keeps its id. |
| `LutIds.IdsAreForever` | autogentoo/hacksaw/lut.c:119-249 | An id issued for a key names it after any further run: the key has that id, the id has that key, and it leads to the data stored last, as long as no hash has more than 65536 keys. |
| `LutIds.IdsDistinctIffCapped` | autogentoo/hacksaw/lut.c:217-249 | Distinct keys have distinct ids exactly when no hash has more than 65536 keys, the width of the overlap counter. |
| `LutIds.EarlyIdLastsIff` | autogentoo/hacksaw/lut.c:217-249 | The id taken for a key before the key is inserted survives the insertion of another key exactly when the two hashes differ; otherwise it becomes the id of the other key. |
| `LutIds.FindIdIsExact` | autogentoo/hacksaw/lut.c:205-215 | Under a hash, an id leads to the entry that its overlap counter names, wrapped at 16 bits. |
| `LutIds.FoundIsStored` | autogentoo/hacksaw/lut.c:193-215 | Whatever an id leads to is what the table stores under the key that it carries. |
| `LutIds.IdFindsFirst` | autogentoo/hacksaw/lut.c:193-215 | An id finds data and key of the first entry of its bucket that carries it, and 0 and no key when no entry of the table does. |
| `LutModel.IdLayout` | autogentoo/hacksaw/lut.h:34-40 | An id holds the hash in its lower 32 bits and the overlap counter, modulo 2^16, in the 16 bits above. |
| `LutIds.InsertEffect` | autogentoo/hacksaw/lut.c:119-191 | What one insertion does to the entries under every hash: appends a new one, or changes data and flags of one, and leaves all others. |
| `LutModel.ResizeKeepsGroups` | autogentoo/hacksaw/lut.c:58-105 | A resize keeps the entries under every hash, in their order. |
| `LutModel.ResizeKeepsTable` | autogentoo/hacksaw/lut.c:58-105 | A resize keeps the table well formed, every entry exactly once, and the entries under every hash. |
| `LutModel.ResizeKeepsSearch` | autogentoo/hacksaw/lut.c:58-105 | A resize keeps what every id leads to, ids that wrapped around included. |
| `LutModel.InsertKeepsLoad` | autogentoo/hacksaw/lut.c:127-130 | The count stays below the resize threshold after every insertion. |
| `LutModel.GrowsFourfoldIff` | autogentoo/hacksaw/lut.c:127-130 | An insertion makes the table four times as large exactly when ten times the count plus two exceeds seven times the size, and leaves the size otherwise. |
| `LutModel.ScanIsGetId` | autogentoo/hacksaw/lut.c:217-249 | The search that counts the entries under the hash until it meets the key answers with the key's id, or with the id that its insertion would give it. |
| `Lut.LookupTable.GetId` | autogentoo/hacksaw/lut.c:217-249 | The loop over the linked bucket answers as the model does. |
| `Lut.LookupTable.Get` | autogentoo/hacksaw/lut.c:205-215 | The loop over the linked bucket finds the data of an id, or 0. |
| `Lut.LookupTable.GetKey` | autogentoo/hacksaw/lut.c:193-203 | The loop over the linked bucket finds the key of an id, if any. |
| `Lut.LookupTable.Realloc` | autogentoo/hacksaw/lut.c:58-105 | Relinking every node, the same nodes with the same entries, into the new buckets deals them out by their hashes in their old order. |
| `Lut.RestIsEmpty` | autogentoo/hacksaw/lut.c:70 | When the resize loop stops because all nodes are out, the remaining old buckets are empty. |
| `Lut.LookupTable.InsertId` | autogentoo/hacksaw/lut.c:127-191 | The new contents of the table, and for every object by how much the references held on it change, the temporary node of an overwrite included. |
| `Lut.LookupTable.Insert` | autogentoo/hacksaw/lut.c:119-125 | The new contents, the id returned, the change of references, and that the table stays well formed. |
| `Lut.LookupTable.Release` | autogentoo/hacksaw/lut.c:17-38 | Freeing the table gives back, for every object, one reference for each node that owns it. |
| `References.NewKeyTakes` | autogentoo/hacksaw/lut.c:132-141 | An insertion of a new key takes one reference, on the Python object if the caller's flags have that bit, else on the counted object if they have that one; null data and data without either bit take none, and no other object is touched. |
| `References.KnownKeyMoves` | autogentoo/hacksaw/lut.c:172-190 | An insertion under a known key with other data takes the reference that the caller's flags ask for and gives back the one that the stored entry's own flags stand for; with the same data it moves none. |
| `Ownership.OwnCountIsLiveEntries` | autogentoo/hacksaw/lut.c:28-38 | The nodes that own an object are those whose flag bits and data name it; a node with null data owns nothing. |
| `Ownership.ReferencesConservedIff` | autogentoo/hacksaw/lut.c:132-190 | An insertion keeps references and owning nodes in balance for every object exactly when an overwrite of the same data keeps the kind of ownership. |
| `Ownership.OverwriteConservedIff` | autogentoo/hacksaw/lut.c:172-189 | An overwrite conserves the references on every object exactly when the data changes or the kind of ownership stays. |
| `References.RunConserves` | autogentoo/hacksaw/lut.c:28-190 | Over any run that keeps the kinds of ownership, the references held change by exactly the change in the number of owning nodes. |
| `References.RunFromEmptyConserves` | autogentoo/hacksaw/lut.c:28-190 | Over such a run from an empty table on, the references held are as many as the nodes that own, so that the release leaves none. |
| `Lut.FillAndRelease` | autogentoo/hacksaw/lut.c:17-191 | A table that is made, filled by any run that keeps the kinds of ownership, and freed holds no reference on any object. |
| `Interning.UseRegistry.UseGetGlobal` | autogentoo/cportage/use.c:44-69 | A flag name gets an id and an object once; no flag interned before changes its id or its object; a new flag is switched off. |
| `Murmur.MapGetHash` | autogentoo/hacksaw/map.c:178-229 | The loop over blocks and the fall-through tail compute the hash on values. |
| `Murmur.RoundIsBijective` | autogentoo/hacksaw/map.c:199-211 | A block round is a bijection in the state for each block, and in the block for each state, with the inverses named. |
| `Murmur.MixBlockIsBijective` | autogentoo/hacksaw/map.c:201-206 | The scrambling of a block is a bijection, with its inverse named. |
| `Murmur.FinishIsBijective` | autogentoo/hacksaw/map.c:222-228 | The finaliser is a bijection, with its inverse named. |
| `Murmur.OneBlockNeverCollides` | autogentoo/hacksaw/map.c:178-229 | Inputs of one length that differ within one 4-byte block have different hashes. |
| `Murmur.TailNeverCollides` | autogentoo/hacksaw/map.c:178-229 | Inputs of one length that differ only behind the last whole block have different hashes. |
| `Murmur.HashOfHello` | autogentoo/hacksaw/map.c:178-229 | A known answer: the bytes of "hello", a block and a tail, hash to 0x248bfa47. |
| `Murmur.HashOfAbc` | autogentoo/hacksaw/map.c:178-229 | Known answers: the bytes of "abc", a tail alone, hash to 0xb3dd93fa, and no bytes to 0. |
| `Murmur.OneBlockFormula` | autogentoo/hacksaw/map.c:178-229 | The hash of four bytes, step by step, with every multiplier, rotation and shift written out. |
| `MapModel.RunRefinesStore` | autogentoo/hacksaw/map.c:43-176 | Over any run of insertions, removals and lookups the chained map answers as a finite map does, stays well formed, and then lists exactly its keys, each once. |
| `MapModel.RunFromEmpty` | autogentoo/hacksaw/map.c:27-176 | The same from a new map on, against a finite map that starts empty. |
| `MapModel.CountDrifts` | autogentoo/hacksaw/map.c:43-65 | A resize adds the number of items to the count, and a removal leaves it as it is. |
| `MapModel.GrowsAsDocumentedIff` | autogentoo/hacksaw/map.h:61 | The documented trigger, a count of at least size times threshold, always makes the map grow; it grows at most two counts before; and it grows as documented exactly when the trigger is met or the test of map.c:166 fails. |
| `MapModel.GrowsTwoEarly` | autogentoo/hacksaw/map.c:164-167 | A map of 32 buckets with the threshold 0.8 grows at a count of 24; the documented trigger is met from 26 on. |
| `MapModel.AllKeysOnce` | autogentoo/hacksaw/map.c:67-83 | The listing holds every key exactly once, although its loop stops as soon as as many keys are out as the count says. |
| `MapModel.ResizeKeepsContents` | autogentoo/hacksaw/map.c:43-65 | A resize keeps every key with its data. |
| `MapModel.ResizeDealsOut` | autogentoo/hacksaw/map.c:43-65 | A resize deals the items out in the order of the old buckets, each of them from its end to its front, so that the chain of every new bucket is known. |
| `MapModel.InsertItemPlaces` | autogentoo/hacksaw/map.c:134-162 | A new item stands in front of its chain and is counted; a known key keeps its place and the count; other chains stay. |
| `MapModel.AllKeysInOrder` | autogentoo/hacksaw/map.c:67-83 | The listing has the keys bucket by bucket, each chain from its front. |
| `MapModel.InsertRefinesUpdate` | autogentoo/hacksaw/map.c:134-176 | An insertion, with the resize before it, sets one key and keeps all others. |
| `MapModel.RemoveRefinesDeletion` | autogentoo/hacksaw/map.c:101-132 | A removal deletes one key and keeps all others. |
| `ChainedMap.ChainedMap.constructor` | autogentoo/hacksaw/map.c:27-41 | A new map is empty. |
| `ChainedMap.ChainedMap.Get` | autogentoo/hacksaw/map.c:85-99 | The loop over the linked chain finds the data of a key. |
| `ChainedMap.ChainedMap.Insert` | autogentoo/hacksaw/map.c:164-176 | The new contents: an overwrite in place or a link in front, after a resize that inserts each chain from its end. |
| `ChainedMap.ChainedMap.Realloc` | autogentoo/hacksaw/map.c:51-65 | Reinserting all links, each chain from its end, gives the contents that the model gives, the inflated count included. |
| `ChainedMap.ChainedMap.Remove` | autogentoo/hacksaw/map.c:101-132 | Unlinks the key and returns its data. |
| `ChainedMap.ChainedMap.AllKeys` | autogentoo/hacksaw/map.c:67-83 | The loop over the buckets lists what the model lists. |
| `Versions.VersionCompare` | autogentoo/cportage/atom.c:415-502 | The loop over both component lists and the two text buffers computes the comparison, whatever the buffers held before. |
| `Versions.ReadNumbers` | autogentoo/cportage/atom.c:454-486 | The two numbers of a step, read directly or through the padded buffers. |
| `Versions.CompareStep` | autogentoo/cportage/atom.c:420-494 | One round of the loop decides, or leaves the pair undecided, as the model says. |
| `VersionOrder.StepFollowsKeys` | autogentoo/cportage/atom.c:420-494 | On plain components a step decides exactly when their keys differ, with the sign of the keys. |
| `VersionOrder.CompareIsReferenceOrder` | autogentoo/cportage/atom.c:415-502 | On plain versions (digits only, at most nine to a component) the sign of the comparison is the dictionary order of the lists of component keys, and then the order of the revisions. |
| `VersionOrder.PaddingWidthIsIrrelevant` | autogentoo/cportage/atom.c:463-485 | Padding two texts with zeros to any common width orders them as decimal fractions. |
| `VersionOrder.NumbersFollowRanks` | autogentoo/cportage/atom.c:454-488 | Whichever branch a pair of components takes, integers or padded fractions, the result has the sign of one ranking of components and does not overflow. |
| `VersionOrder.LeadingZerosComeFirst` | autogentoo/cportage/atom.c:454-485 | A component with a leading zero ranks below every component without one, zero apart. |
| `VersionOrder.CompareReflexive` | autogentoo/cportage/atom.c:415-502 | Every plain version equals itself. |
| `VersionOrder.CompareAntisymmetric` | autogentoo/cportage/atom.c:415-502 | Swapping two plain versions swaps the sign. |
| `VersionOrder.CompareTransitive` | autogentoo/cportage/atom.c:415-502 | On plain versions the comparison is transitive, strictly so when one step is strict. |
| `VersionOrder.CompareEqualMeansSameKey` | autogentoo/cportage/atom.c:415-502 | Two plain versions compare equal exactly when their component keys and revisions agree. |
| `VersionOrder.OrderedByPrefixes` | autogentoo/cportage/atom.c:425-426 | Versions with the same plain components in front of a place are ordered by their prefixes there, from alpha over beta, pre, rc and none to p, whatever the texts, the components behind and the revisions are. |
| `VersionOrder.LeadingZeroIsFraction` | autogentoo/cportage/atom.c:458-488 | Components with a leading zero count as decimal fractions: of two of one length the greater number is newer, and a zero at the end does not matter. |
| `VersionOrder.LongerIsNewer` | autogentoo/cportage/atom.c:496-501 | Of two plain versions of which one goes on where the other ends, the longer one is newer, whatever the revisions are. |
| `VersionLetters.EqualToItselfIff` | autogentoo/cportage/atom.c:445-449 | A version without a star equals itself exactly when no component before the last one ends in a letter. |
| `VersionLetters.SwapSwapsSignIff` | autogentoo/cportage/atom.c:415-502 | For versions without a star, swapping them swaps the sign exactly when the first deciding pair is not two letters with components behind both, and neither its numbers nor the deciding revisions lie 2^31 apart. |
| `VersionLetters.SwapSwapsSignUnlessLettersMeet` | autogentoo/cportage/atom.c:445-449 | Where no numbers or revisions lie 2^31 apart, swapping swaps the sign exactly when no two letters meet before the end of both versions, at a pair up to which all is undecided. |
| `VersionSuffixes.OrderedIffNotCut` | autogentoo/cportage/atom.c:415-502 | Among versions of any length with at most a letter at the very end, the comparison is the dictionary order of component keys, with what stands behind each, and then that of revisions, exactly when neither letter cuts it off: no last letter stands where the other version goes on, with all keys before it equal and the greater number in front of it. |
| `VersionSuffixes.CutMakesACycle` | autogentoo/cportage/atom.c:445-449 | Every letter that cuts a comparison off makes a cycle: f < s < g < f, where g is f without its letter. |
| `VersionSuffixes.TransitiveIffNoCuts` | autogentoo/cportage/atom.c:415-502 | On every set of such versions that is closed under dropping the letter, the comparison is transitive exactly when no letter cuts a comparison off. |
| `VersionSuffixes.SuffixedPreorder` | autogentoo/cportage/atom.c:415-502 | Such versions of one length are totally preordered: reflexive, sign-antisymmetric, transitive, strictly so when one step is strict. |
| `VersionSuffixes.LaterLetterIsNewer` | autogentoo/cportage/atom.c:451-494 | At the end of both versions, the same number with a letter is above the one without, and a later letter above an earlier one. |
| `VersionStars.StarEndsComparison` | autogentoo/cportage/atom.c:432-490 | Comparing with a version that has a star is comparing it up to the star, in both orders of the arguments; what stands behind the star, and the revisions, do not matter. |
| `VersionStars.StarEqualToItselfIff` | autogentoo/cportage/atom.c:432-490 | A version with a star compares equal to itself exactly when the text in front of the star has no leading zero or is nothing but zeros; otherwise it is above itself, by nine times the number. |
| `VersionLetters.LetterBelowItself` | autogentoo/cportage/atom.c:445-449 | 1b_p1 compares below itself. |
| `VersionLetters.LettersMakeACycle` | autogentoo/cportage/atom.c:445-449 | A witness: 12.5b < 12.4.4 < 12.5 < 12.5b. |
| `VersionNumbers.NumberIsValueIff` | autogentoo/cportage/atom.c:456-457 | A text of digits is read as its value exactly when that is below 2^31. |
| `VersionNumbers.OrderedIffBelowLimit` | autogentoo/cportage/atom.c:454-488 | A number without a leading zero is ordered correctly against every such number below 2^31 exactly when it is below 2^31 itself. |
| `VersionNumbers.NumberWraps` | autogentoo/cportage/atom.c:460-481 | A text of digits is read modulo 2^32 as a signed number, and as -1 from 2^63 on. |
| `VersionNumbers.NumberInText` | autogentoo/cportage/atom.c:460-481 | Blanks in front of a number are passed over and one sign is taken, what stands behind its digits is not read, and 64 bits are the limit. |
| `VersionNumbers.LongNumberBelowOne` | autogentoo/cportage/atom.c:456-488 | 3000000000 compares below 1. |
| `AtomText.ParseUndoesPrintVersion` | autogentoo/cportage/atom.c:229-315 | Parsing a printed version gives back its components with their prefixes, and its revision. |
| `AtomText.ParseUndoesPrintAtom` | autogentoo/cportage/atom.c:354-405 | Splitting and parsing category/name-version[-rN] gives back category, name, key, components and revision, even when the name has dashes. |
| `AtomText.NameWithoutVersion` | autogentoo/cportage/atom.c:354-405 | When no dash of the name stands in front of a digit, category/name splits into these two and has no version. |
| `AtomText.VersionDashIff` | autogentoo/cportage/atom.c:367-391 | The version of an atom starts at a dash in front of a digit behind which no dash stands, but for one in front of r and a digit, and nowhere else. |
| `AtomText.RevisionIsCutOff` | autogentoo/cportage/atom.c:248-253 | What stands behind the last dash of a version and starts with r is its revision, read as a number, and no part of its components. |
| `AtomText.NoSlashNoAtom` | autogentoo/cportage/atom.c:357-364 | A text without a slash is no atom. |
| `AtomText.PrefixesByName` | autogentoo/cportage/atom.c:231-296 | alpha, beta, pre, rc, p and nothing in front of a number are read as the prefixes of these names. |
| `AtomText.LettersThenDigits` | autogentoo/cportage/atom.c:231-296 | Whatever stands in front of the first digit is read by its length alone, and more than five characters end the parsing. |
| `AtomText.NoDigitNoPrefix` | autogentoo/cportage/atom.c:263-266 | A component without a digit is its own text, without a prefix. |
| `AtomText.PiecesAreSeparated` | autogentoo/cportage/atom.c:253-312 | A dot, an underscore or a dash ends a component: what stands in front and behind is read on its own, and an unknown prefix ends the parsing. |
| `AtomReader.ReadVersion` | autogentoo/cportage/atom.c:229-315 | Cutting the text in place computes what the parser computes. |
| `AtomReader.ReadAtom` | autogentoo/cportage/atom.c:354-405 | Cutting the text in place computes category, name, key and version as the parser does. |
| `PackageOrder.AddedAllSorts` | autogentoo/cportage/package.c:63-97 | Adding ebuilds one by one is a stable sort, newest first: a permutation, sorted, and ebuilds of equal version stay in the order of their addition. |
| `PackageOrder.InsertedIsStable` | autogentoo/cportage/package.c:63-97 | An insertion puts the ebuild behind those of equal version and keeps the order of the others. |
| `PackageOrder.OrderOfAdditionIsIrrelevant` | autogentoo/cportage/package.c:63-97 | When no two versions compare equal, the order of addition does not matter. |
| `PackageOrder.MatchIsNewest` | autogentoo/cportage/package.c:109-126 | For the ranges ALL, G, GE, L and LE the pick is the newest ebuild that the atom takes, and there is none exactly when it takes none. |
| `PackageOrder.MatchIsNewestIff` | autogentoo/cportage/package.c:109-126 | For every range, the pick is right if and only if the loop does not give up: no `=` or `~` alone, with a newer ebuild at the head of the list and a match behind it. |
| `PackageOrder.EqualityMissesOlderVersion` | autogentoo/cportage/package.c:121-123 | With 2 and 1 in the list, the atom for exactly 1 finds nothing. |
| `PackageOrder.AnyRevisionIsEqual` | autogentoo/cportage/package.c:112-115 | `~` picks what `=` picks, from every list. |
| `PackageOrder.AnyRevisionTakesOneIff` | autogentoo/cportage/atom.c:515-529 | `~` takes an ebuild of its package exactly when version and revision are the atom's. |
| `PackageOrder.AnyRevisionAsDocumentedIff` | autogentoo/cportage/portage.h:50 | `~` is documented to take the version in any revision; it does so exactly for ebuilds of another version or of the atom's revision. |
| `PackageOrder.AnyRevisionMissesRevisionOne` | autogentoo/cportage/portage.h:50 | `~1` does not take 1-r1. |
| `PackageOrder.MatchesAsTaken` | autogentoo/cportage/atom.c:515-529 | The atom's own test, which compares with the arguments swapped, agrees with the test of the loop. |
| `PackageOrder.RangesMean` | autogentoo/cportage/atom.c:515-529 | By the order of component keys and then of revisions: an atom takes an ebuild of its package for `=` and `~` when it is equal, for > when newer, for >= when newer or equal, for < when older, for <= when older or equal, and for ALL always. |
| `PackageOrder.NoVersionTakesAll` | autogentoo/cportage/atom.c:515-529 | An atom without a version takes exactly the ebuilds of its package. |
| `Packages.Package.constructor` | autogentoo/cportage/package.c:22-38 | A new package has no ebuilds. |
| `Packages.Package.AddEbuild` | autogentoo/cportage/package.c:48-99 | Relinks the list so that the ebuild stands in front of the first strictly older one; an ebuild of another package is refused and nothing changes; the check for adding twice never fires. |
| `Packages.Package.MatchAtom` | autogentoo/cportage/package.c:101-127 | The walk over the linked list returns the ebuild that the model picks. |
| `Grouping.LoadingGroups` | autogentoo/cportage/portage.c:144-192 | After loading any sequence of ebuilds, each package holds exactly the ebuilds with its key, added in the order of loading. |
| `Grouping.LoadedOnce` | autogentoo/cportage/portage.c:144-192 | Each ebuild ends up in the package of its own key as often as it was loaded and in no other package, and packages of plain versions are sorted newest first. |
| `Grouping.MatchAmongLoaded` | autogentoo/cportage/portage.c:74-91 | A match is the newest ebuild loaded in any order that the atom takes, and there is none exactly when it takes none. |
| `Grouping.NewestInRange` | autogentoo/cportage/portage.c:74-91 | The same in terms of component keys and revisions: the pick stands in the range of the atom and not below any other loaded ebuild that does, and there is none exactly when no loaded ebuild stands in the range. |
| `Grouping.EntriesContribute` | autogentoo/cportage/portage.c:144-192 | Every directory entry contributes its ebuild, in the order of the entries, but for those that start with a dot and the manifest, which contribute none; loading fails exactly when one of them has no version. |
| `Grouping.EntryOfPrinted` | autogentoo/cportage/ebuild.c:18-45 | The entry of a printed version becomes the ebuild of that package, version and revision. |
| `Repository.LoadEntries` | autogentoo/cportage/portage.c:144-192 | The loop over directory entries keeps table, package objects and lists consistent: every package is found by its own id, holds the grouping of what was loaded, and no id changes. |
| `Repository.LoadRelease` | autogentoo/cportage/portage.c:165-191 | One entry: the package is found through the id or made and registered under it, and the ebuild is linked in. |
| `Repository.NewRepository` | autogentoo/cportage/portage.c:27-32 | A new repository is consistent and empty. |
| `Repository.FindMatch` | autogentoo/cportage/portage.c:74-91 | The package behind the id, whichever key it belongs to, answers with the model's pick among what was loaded; an id that the table does not know is an error; the id of a loaded key leads to the package of that key. |
| `RequiredUse.EvaluateRequiredUse` | autogentoo/portage/resolve.py:213-287 | The recursive loops compute the evaluation: the same counts, the same suggestions, the same missing flags. |
| `RequiredUse.RunHook` | autogentoo/portage/resolve.py:205-299 | The hook returns, raises with the suggestions, or fails on an unknown flag, as the evaluation says. |
| `RequiredUse.EvaluateCounts` | autogentoo/portage/resolve.py:224-287 | An evaluation succeeds exactly when the flags it reaches are known; then it counts the expressions that hold, and carries exactly n - k suggestions. |
| `RequiredUse.AcceptedIffStrict` | autogentoo/portage/resolve.py:289-299 | The hook accepts exactly the expressions all of whose parts hold when a conditional needs its guard. |
| `RequiredUse.AcceptedIffTrue` | autogentoo/portage/resolve.py:213-299 | Without conditionals the hook accepts exactly when the expression is true. |
| `RequiredUse.AcceptedIffTrueWhenMet` | autogentoo/portage/resolve.py:213-299 | With every guard met, at any depth and in groups too, the hook accepts exactly when the expression is true. |
| `RequiredUse.AcceptedIsTrue` | autogentoo/portage/resolve.py:213-299 | With the guard of every conditional under `^^` or `??` met, what the hook accepts is true when conditionals are read as implications. |
| `RequiredUse.AcceptedIsTrueByForm` | autogentoo/portage/resolve.py:213-299 | With no conditional under `^^` or `??`, what the hook accepts is true for every assignment. |
| `RequiredUse.TrueMembers` | autogentoo/portage/resolve.py:228-257 | Of the members of a group, true are those that hold strictly and those whose guard is not met. |
| `RequiredUse.AcceptedGroupIsTrueIff` | autogentoo/portage/resolve.py:258-281 | An accepted `\|\|` is true; an accepted `^^` is true exactly when no member has its guard unmet; an accepted `??` is true exactly when the members that hold and those with an unmet guard are at most one. |
| `RequiredUse.GroupDecidedByMeaningIff` | autogentoo/portage/resolve.py:258-281 | The exact condition, for each kind of group, under which acceptance and rejection both follow the meaning. |
| `RequiredUse.AcceptedIffTrueAndMet` | autogentoo/portage/resolve.py:254-257 | With conditionals outside groups only, the hook accepts exactly when the expression is true and every guard is met. |
| `RequiredUse.ConditionMeans` | autogentoo/portage/resolve.py:213-257 | The reading that the results are about: a literal by its state, a conditional as an implication to all of its body. |
| `RequiredUse.GroupsMean` | autogentoo/portage/resolve.py:258-281 | And the groups by their members: some member holds, exactly one, no two. |
| `RequiredUse.UnmetGuardIsRejected` | autogentoo/portage/resolve.py:254-257 | a? ( b ) with a off is true and is rejected. |
| `RequiredUse.UnmetGuardUnderExactOne` | autogentoo/portage/resolve.py:266-273 | A witness: ^^ ( a? ( b ) c ) is accepted with two members true. |
| `Repair.SuggestionRepairs` | autogentoo/portage/common.py:44-74 | Among literals and `\|\|`, an assignment that does what the suggestion says and keeps every literal that held is accepted. |
| `Repair.MetRepairs` | autogentoo/portage/resolve.py:224-287 | At least as many expressions hold afterwards as held before plus suggestions are met. |
| `Repair.GroupRepairedIff` | autogentoo/portage/resolve.py:258-281 | For a failing group of literals whose suggestion an assignment does, keeping the literals that held: `\|\|` is repaired always, `^^` exactly when no member held before, `??` never. |
| `Repair.GuardRepairedIff` | autogentoo/portage/resolve.py:256-257 | An assignment that meets an unmet guard as suggested is accepted exactly when the body is accepted under it. |
| `Repair.TwoWaysOut` | autogentoo/portage/resolve.py:238-253 | A conditional whose guard is met and whose body fails suggests two ways: switch the guard, or follow the suggestion for the body. |
| `Repair.SecondWayRepairs` | autogentoo/portage/resolve.py:238-253 | For bodies of literals and `\|\|`, following the second way, while the guard and the literals that held are kept, follows the whole suggestion, and the conditional is accepted. |
| `Repair.EvaluateConcat` | autogentoo/portage/resolve.py:213-287 | Two lists evaluated together have the sum of their counts, and the suggestions for the second one behind those for the first one. |
| `Repair.DroppedGuardIsRejected` | autogentoo/portage/resolve.py:243-253 | Dropping the guard of a conditional whose body fails is suggested, and an assignment that does so is always rejected. |
| `Repair.AtMostOneSuggestsNothing` | autogentoo/portage/resolve.py:274-281 | A witness: ?? ( a b ) with both on is rejected with a suggestion that the same assignment meets. |
| `Repair.GuardSuggestionIsNotEnough` | autogentoo/portage/resolve.py:256-257 | A witness: meeting the guard of a? ( b ) with both off leads to the next rejection. |
| `UseModel.RunKeepsInv` | autogentoo/portage/resolve.py:502-573 | Over any run of calls that return normally, every enforcing selection has its target as the current state, every registered expression is accepted, and hooks stand on known flags only, each under the name of its own flag. |
| `UseModel.NoConflict` | autogentoo/portage/resolve.py:185-189 | No flag carries two enforcing selections with different targets. |
| `UseModel.RequirementReturnsIff` | autogentoo/portage/resolve.py:149-189 | A requirement returns normally exactly when the flag is known and already as asked; asking for the opposite never does. |
| `UseModel.FlushReturnsIff` | autogentoo/portage/resolve.py:552-573 | A flush returns normally exactly when every scheduled flag is known, every scheduled value agrees with the selections on its flag, and the expressions hold after every step; then the flags are as scheduled, the last value standing. |
| `UseModel.FlushKeepsInv` | autogentoo/portage/resolve.py:552-573 | A flush that returns normally keeps the invariant. |
| `UseModel.ScheduledValueStands` | autogentoo/portage/resolve.py:542-573 | A value scheduled last is the state of its flag after the next flush that returns normally. |
| `UseModel.RefreshReturnsIff` | autogentoo/portage/resolve.py:454-459 | Flushing and then registering the ebuild's expression returns normally exactly when the queue is agreeable and the expression is accepted with the flags as scheduled; then the invariant holds for it too. |
| `UseModel.EvaluationExtends` | autogentoo/portage/resolve.py:502-510 | Making a flag known changes no evaluation that had all its flags. |
| `UseModel.AddUseKeepsInv` | autogentoo/portage/resolve.py:502-510 | Adding a flag that was not known keeps the invariant, although it runs no hooks. |
| `SelectedEbuilds.SelectedEbuild.GetUse` | autogentoo/portage/resolve.py:497-500 | A flag that was set hides the one of the ebuild; an unknown flag is an error. |
| `SelectedEbuilds.SelectedEbuild.NewSelection` | autogentoo/portage/resolve.py:149-175 | The target, whether it is enforced, and the value that gets scheduled, for each way of asking. |
| `SelectedEbuilds.SelectedEbuild.AddUseRequirement` | autogentoo/portage/resolve.py:512-540 | The new state and the outcome; the hook and a scheduled value stay even when the call raises. |
| `SelectedEbuilds.SelectedEbuild.AddRequiredUse` | autogentoo/portage/resolve.py:523-534 | The expression is registered for every change and evaluated at once. |
| `SelectedEbuilds.SelectedEbuild.FlushUse` | autogentoo/portage/resolve.py:552-573 | The loop over the queue and its loops over the hooks give the state and outcome of the model, the rest of the queue after an exception included. |
| `Vetoes.HeldFlagStays` | autogentoo/portage/resolve.py:155-189 | After a requirement that returned normally and that holds the flag (always for `=`, and for stay-on of a flag that is on and stay-off of one that is off), the flag keeps its state through every run of calls that return normally. |
| `Vetoes.OppositeIsVetoed` | autogentoo/portage/resolve.py:155-189 | And after every such run a flush that takes the opposite state from the queue raises, with exactly that flag and the held state for a suggestion. |
| `Vetoes.UnheldFlagVetoesNothing` | autogentoo/portage/resolve.py:165-170 | Asking for stay-on of a flag that is off, or stay-off of one that is on, vetoes nothing: every flush ends as it would without it. |
| `Vetoes.RequirementIsKept` | autogentoo/portage/resolve.py:512-540 | Whether or not the call raises, the selection joins behind the earlier ones of its flag, the value it asks for is scheduled, and no flag changes; which state it holds is written out for each way of asking. |
| `Vetoes.RefusedExpressionIsWatched` | autogentoo/portage/resolve.py:529-534 | An expression is watched even when its registration raised, behind those registered before: a change that they let through is let through exactly when it is accepted afterwards, and raises its suggestion otherwise. |
| `Vetoes.FlushOneByOne` | autogentoo/portage/resolve.py:552-573 | A value that the flag has already passes, whatever the hooks say; any other is set, and stays set when a hook raises, with the values behind it still in the queue. |
| `Vetoes.FirstExpressionRaises` | autogentoo/portage/resolve.py:570-573 | Of the expressions, the first one that is not accepted raises, by its own suggestion or its missing flag. |
| `AtomRequirements.RequireAllNotes` | autogentoo/portage/resolve.py:65-88 | Requirements that return normally keep the invariant and every hook, and a hook stands for each of them: as the atom asks, or, for a flag that the ebuild does not have, as its default says. |
| `AtomRequirements.NotedIsHonoured` | autogentoo/portage/resolve.py:185-189 | While the invariant holds, a requirement that a hook stands for is met by the flags. |
| `AtomRequirements.CalmAll` | autogentoo/portage/resolve.py:65-88 | While nothing is scheduled that would change a flag, requirements that return normally change none; where no default is needed, they return normally exactly when the flags are as asked already. |
| `AtomRequirements.DefaultsDependOnOrder` | autogentoo/portage/resolve.py:66-86 | A witness: two atoms that ask for one unknown flag with different defaults return normally in one order and not in the other. |
| `AtomRequirements.RequireFlagRaises` | autogentoo/portage/resolve.py:65-88 | What asking for one flag raises, from the flag's state and the way of asking alone. |
| `AtomRequirements.FirstFlagRaises` | autogentoo/portage/resolve.py:65-88 | Of the flags of an atom, the first one that cannot be had raises. |
| `SelectedEbuilds.SelectedEbuild.RequireFlag` | autogentoo/portage/resolve.py:65-88 | One flag of an atom: asked for, or added with its default, or an error; state and outcome of the model. |
| `SelectedEbuilds.SelectedEbuild.RequireAll` | autogentoo/portage/resolve.py:65-88 | The loop over the flags of an atom stops at the first exception, with the state and outcome of the model. |
| `SelectedEbuilds.SelectedEbuild.Refresh` | autogentoo/portage/resolve.py:454-459 | The flags' part of regenerate gives the state and outcome of the model. |
| `SessionOutcome.SessionReturnsIff` | autogentoo/portage/resolve.py:403-492 | While an atom always selects the same ebuild, no default is needed and nothing is scheduled that would change a flag, resolving an ebuild in a new session returns normally exactly when the ebuild belongs to a set that is closed under what its members select and in which the REQUIRED_USE of each member is accepted and the flags asked for are as asked already; then the session is the least closed set, and no flag has changed. |
| `SessionOutcome.RebuildIff` | autogentoo/portage/resolve.py:447-474 | A regeneration returns normally exactly when the expression of the ebuild is accepted and each of its dependencies can be had, as the flags stand; then its generators are what its atoms select, list by list and in order. |
| `SessionOutcome.SessionChangesNoFlag` | autogentoo/portage/resolve.py:403-573 | However atoms select, a session that returns normally changes no flag of any ebuild and only adds flags with their defaults, if nothing was scheduled before that would change one. |
| `Regeneration.SessionHonours` | autogentoo/portage/resolve.py:403-573 | However atoms select, when a new session returns normally, then at its end the REQUIRED_USE of every member is accepted, and each atom that a member needs is resolved, in its list, to a member whose flags are as the atom asks. |
| `Regeneration.RebuildProvides` | autogentoo/portage/resolve.py:447-474 | A regeneration that returns normally has a hook stand for every requirement it makes and for the expression of the ebuild, keeps every hook that stood before, and keeps the invariant of all flags. |
| `Regeneration.VisitIsReplay` | autogentoo/portage/resolve.py:403-492 | All that the recursive walk does besides recording resolved dependencies it does by starting ebuilds one after the other. |
| `Regeneration.GuardedListIsPassedOver` | autogentoo/portage/resolve.py:91-113 | A list behind a USE condition, on a flag that is known, adds nothing: the expansion of the other dependencies is the same without it. |
| `Regeneration.RebuildRaises` | autogentoo/portage/resolve.py:447-474 | Which exception a regeneration ends in: that of the flush or the expression, which leave no generators; for a dependency that of its selection, of its requirements, or the KeyError of its condition. |
| `Regeneration.FirstDependencyRaises` | autogentoo/portage/resolve.py:115-121 | The dependencies in front of the first one that raises have been expanded; that one adds no generator, and those behind it are not looked at. |
| `Regeneration.SelectionsInOrder` | autogentoo/portage/resolve.py:46-121 | An expansion that returns normally has selected or blocked each atom once, in their order. |
| `ResolveModel.SessionIsReachableSet` | autogentoo/portage/resolve.py:403-409 | On a normal return the session is the least set that holds the ebuild and, with every member, all its dependencies, cycles or not; every member is complete. |
| `ResolveModel.VisitCompletes` | autogentoo/portage/resolve.py:476-492 | Every ebuild that joined the session has its generators as resolved dependencies, list by list and in order, and all of them are in the session. |
| `ResolveModel.VisitMinimal` | autogentoo/portage/resolve.py:403-409 | Nothing joins the session that is not reached over generators, whether the call returns or raises. |
| `ResolveModel.FailureSticks` | autogentoo/portage/resolve.py:403-409 | An ebuild whose regeneration raised stays in the session, and the next call takes it for resolved. |
| `ResolveModel.RaisedVisitKeepsPrefix` | autogentoo/portage/resolve.py:441-492 | When a regeneration raises, the ebuild keeps its old resolved dependencies; when one of its dependencies raises, it has those in front of it, in the order of the generators. |
| `ResolveModel.ResolvingAgainIsStable` | autogentoo/portage/resolve.py:441-492 | When no member is dirty, resolving again in a new session rebuilds nothing and gives the same session, flags and dependencies. |
| `SessionDirt.StartDirtiesIff` | autogentoo/portage/resolve.py:447-550 | After a start that returns normally the ebuild itself is clean, and another one is dirty exactly when it was before or a requirement of the start schedules a value on it. |
| `SessionDirt.SchedulingDirties` | autogentoo/portage/resolve.py:542-573 | A value that is scheduled makes its ebuild dirty, and a flush alone leaves it so. |
| `SessionDirt.FailedStaysDirty` | autogentoo/portage/resolve.py:447-474 | An ebuild whose regeneration raised stays dirty. |
| `SessionDirt.RequireAllDirtiesIff` | autogentoo/portage/resolve.py:65-88 | Requirements that return normally make their ebuild dirty exactly when one of them switches a flag on or off, or takes a default. |
| `SessionDirt.SessionDirtyIff` | autogentoo/portage/resolve.py:403-550 | At the end of a session that returns normally a member is dirty exactly when a requirement that switches, or takes a default, was put on it after its own start. |
| `SessionDirt.SessionEndsClean` | autogentoo/portage/resolve.py:403-550 | So a session whose atoms make no such requirement ends with all members clean. |
| `SessionDirt.SecondSessionIsStable` | autogentoo/portage/resolve.py:403-550 | And resolving again after it rebuilds nothing and gives the same session, flags and dependencies. |
| `DependencyContainers.FilledIsCopy` | autogentoo/portage/common.py:10-37 | Appending all members of a container, list after list, copies it. |
| `DependencyContainers.ListNumbers` | autogentoo/portage/common.py:10-37 | Which list each number stands for, and that a walk over a container goes through them in the order of the numbers. |
| `Resolver.ResolveSingle` | autogentoo/portage/resolve.py:46-113 | One dependency expression: the selection, the requirements on the selected ebuild, the blocker, the condition; state, ebuild and outcome of the model. |
| `Resolver.ResolveAll` | autogentoo/portage/resolve.py:115-121 | The expansion of all dependency lists into generators, up to the first exception. |
| `Resolver.RebuildGenerators` | autogentoo/portage/resolve.py:447-474 | The part that a dirty ebuild runs, in order: generators cleared, flags flushed, expression registered, dependencies expanded, dirt removed. |
| `Resolver.GetResolved` | autogentoo/portage/resolve.py:403-409 | The walk over the objects changes them as the model says, and ends: each visit leaves fewer ebuilds outside the session. |
| `Resolver.Regenerate` | autogentoo/portage/resolve.py:441-492 | Rebuilding a dirty ebuild, its flags and those of the ebuilds it asks included, and resolving its generators anew gives the state and outcome of the model. |
| `Resolver.ResolveInNewSession` | autogentoo/portage/resolve.py:403-492 | After a normal return in a new session the objects themselves are as their atoms and expressions ask. |
| `RequestQueue.DecRef` | autogentoo/hacksaw/object.h:47 | Giving a reference back frees the object when none is left, or none was held. |
| `RequestQueue.LinkedVector.constructor` | autogentoo/hacksaw/linked_vector.c:41-48 | A new queue is empty, whatever its tail holds. |
| `RequestQueue.LinkedVector.Append` | autogentoo/hacksaw/linked_vector.c:59-75 | The object joins at the end and gains one reference; the stale tail of an emptied list is not followed. |
| `RequestQueue.LinkedVector.Prepend` | autogentoo/hacksaw/linked_vector.c:77-93 | The object joins in front and gains one reference. |
| `RequestQueue.LinkedVector.Pop` | autogentoo/hacksaw/queue.c:18-31 | The first object leaves, alive, with the reference of its node passed to the caller; no node in the list is a freed one. |
| `RequestQueue.LinkedVector.Peek` | autogentoo/hacksaw/queue.c:33-39 | The first object, or null. |
| `Server.ReachableInv` | autogentoo/network/tcp_server.c:85-278 | In every reachable state: mutual exclusion, nobody stranded, first in first out, every request served once. |
| `Server.ServerIsSafe` | autogentoo/network/tcp_server.c:85-278 | From the start, with any number of workers: every state that is reached satisfies all of this. |
| `Server.StepKeepsExclusive` | autogentoo/network/tcp_server.c:89-98 | Every step keeps the mutex with the one thread that is between lock and unlock. |
| `Server.StepKeepsStranded` | autogentoo/network/tcp_server.c:85-98 | While a request is queued and no broadcast is due, no worker sleeps on the condition variable, spurious wakeups or not. |
| `Server.StepKeepsOrder` | autogentoo/network/tcp_server.c:253-278 | What was accepted is what was dequeued, then what is queued, then what the acceptor still holds, in this order. |
| `Server.StepKeepsServed` | autogentoo/network/tcp_server.c:97-171 | A dequeued request is held by exactly one worker until it is closed, and by none afterwards. |
| `Server.StepKeepsPops` | autogentoo/network/tcp_server.c:90-98 | Between peek and pop the queue does not become empty. |
| `Server.SleeperTakesMutex` | autogentoo/network/tcp_server.c:92-94 | A worker leaves the condition variable for the mutex only, and goes on as its holder. |
| `Server.MutualExclusion` | autogentoo/network/tcp_server.c:85-98 | No two threads of a started server are ever between lock and unlock. |
| `Server.RunsAreShort` | autogentoo/network/tcp_server.c:85-278 | Without new connections, spurious wakeups and a stop, a run of the threads has no more steps than the work left. |
| `Server.QuietMeansDrained` | autogentoo/network/tcp_server.c:85-278 | Where no thread can go on, every accepted request has been served and closed and all workers sleep: there is no deadlock. |
| `Server.Drain` | autogentoo/network/tcp_server.c:85-278 | From every state with the invariant and the server alive, the threads alone can bring every accepted request to its end. |
| `Server.ServerCanDrain` | autogentoo/network/tcp_server.c:85-278 | So can a started server with at least one worker from every state it reaches while it is alive. |
| `Server.EveryScheduleDrains` | autogentoo/network/tcp_server.c:85-278 | Whatever the schedule: from such a state every run of the threads alone is at most as long as the work left, and where it can go no further every accepted request has been served. |
| `Server.StopEndsLoops` | autogentoo/network/tcp_server.c:87 | After a stop a worker at its loop test ends, and so does the acceptor, there or after a connection that failed. |
| `Server.NoRoundAfterStop` | autogentoo/network/tcp_server.c:85-278 | After a stop, whatever the schedule, no more requests are popped than there are workers inside a round that may still pop, and none is accepted but the one that the acceptor waits for already. |

## Left out

- Counters of fixed width: the tables' `n`, reference counts and the map's size are unbounded here; the 16-bit overlap
  counter, the 32-bit hash, numbers and results of the comparator are as wide as in the program.
- Floating point: both resize thresholds are computed over the reals.
- The map's `overlaps` statistic, which nothing reads, and the references of the map, which keeps the one on data that
  it overwrites.
- Ids are packed with arithmetic instead of shifts and masks; a little-endian machine is assumed for the hash.
- Characters are ASCII characters of a sequence; the hash is over bytes.
- PyPortage_add_package is one call of `Lut.LookupTable.Insert` with the package's key and address.
- Versions with letters before the last component, or with a leading zero in front of a letter: no transitivity is
  stated for them. Nor is it for versions with a star, which compare equal to all that agree up to the star
  (VersionStars.StarEndsComparison).
- VersionLetters.EqualToItselfIff: versions with a star are covered, for plain text in front of it, by
  VersionStars.StarEqualToItselfIff.
- VersionLetters.SwapSwapsSignIff: versions with a star are not covered, for the same reason.
- SessionOutcome.SessionReturnsIff: selections that depend on what was selected before, and atoms that fall back on
  defaults, are not covered, because the outcome then depends on the order (AtomRequirements.DefaultsDependOnOrder);
  Regeneration.SessionHonours covers them.
- Resolver.ResolveSingle: slots (InstallPackage) are part of the selection; change_within_slot, which gives a selected
  ebuild other metadata, metadata that is read late, and assertions on ill-formed dependencies are not modelled. The
  hook of a conditional list, which never raises, is not kept.
- Equality of atoms against their hash (autogentoo/cportage/atom.c:503-581): equality looks at the key alone.
- Repository.LoadEntries: reading directories and metadata, and the errors of that, are left out; the entries of a
  directory are given as a sequence.
- Python objects: types, argument parsing, iterators, the interpreter lock.
- The grammars in autogentoo/cportage/requireduse.y and autogentoo/cportage/depend.y: expressions start as trees, and a
  group or a conditional is a tree of its own.
- Hooks on a single flag are selections, hooks on all flags are expressions.
- Server.Drain: shutdown is not claimed to finish or to drain the queue, because keep_alive is read without the mutex
  (autogentoo/network/tcp_server.c:87); messages, callbacks and sockets are left out, and serving a request is one step.
- Vectors, string vectors, sets, the small map and path helpers: they would only add easy members.
