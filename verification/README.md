# Verified models for trollbot

Trollbot is an IRC bot in C. This project models the parts of it that carry a hard invariant,
and proves what those parts are for. Loops over buffers, arrays and linked blocks are methods
over arrays and objects; each is proved equal to a function of its input or of the state before,
and the laws are lemmas about those functions, for every input and every run.

| modules | part of the program | main results |
|---|---|---|
| `TconfigText`, `TconfigHeap`, `TconfigEdit`, `TconfigReader`, `TconfigWriter`, `TconfigRoundTrip`, `TconfigImage`, `TconfigGrammar`, `TconfigOverrun`, `TconfigFree` | the configuration tree of `src/tconfig.c` | reading what was printed gives the forest back, with exact conditions on the strings; exactly what a token and a comment are; exactly which texts lead the reader past their end; freeing releases every block and string once |
| `TconfigMerge`, `TconfigMergeLaws`, `TconfigMergeCount`, `TconfigMerger`, `TconfigDefaults` | `tconfig_merge` and the loading of defaults | merging never overrides, wildcards included; it adds exactly what is missing, each block once; what a merge gets to see of its source; exactly when a merge changes nothing, and when it comes to its end |
| `UserFile`, `UserRoundTrip` | the user file of `src/user.c` | saving and loading gives the users back, and what is lost of those for which it does not |
| `ModuleSearch`, `HandleInvariant`, `HandleRegistry` | module handles of `libltdl/ltdl.c` | which module an open finds, with which dependencies; what a reference count counts, over every run; a failed open, or an open and a close, leaves the registry as it was |
| `Argz`, `ArgzVector`, `SearchPath`, `PathCanon` | packed string vectors and search paths of libltdl | sorted insert, split and join, idempotence, the directories that are searched |
| `Wildcards`, `WildcardSteps`, `WildcardTexts`, `GreedyMatcher`, `BacktrackMatcher`, `BacktrackMisses` | the matchers of `src/troll_lib.c` and `src/util.c` | both are sound; exactly which patterns the forward pass decides, over all five operators; the same for the one with a saved point, but for one shape of `%` behind a star |
| `IrcFraming`, `IrcParse` | `src/irc.c` | exactly for which streams the lines do not depend on how the bytes arrive; a rendered message is read back field by field; exactly which lines the parser stays inside of |
| `Words`, `Bytes`, `BitLogic`, `HashStream`, `Sha512`, `Sha512Tables`, `Sha512Hash`, `Sha512Vector`, `MdState`, `Md5`, `Md5Tables`, `Md4`, `MdHash`, `MdVectors`, `Md2` | the hashes of `src/modules/crypto` | both forms of each compressor compute the standard's rounds; any chunking hashes like the whole padded message; the digests of "abc" |
| `CStrings`, `Shared` | C strings, and what several parts use | |
| `WordXor` and `Blowfish` (one file), `BlowfishSetup` | `src/modules/crypto/blowfish.c` | decryption and encryption undo each other for every schedule; what every word of the key schedule is, and what it depends on |

How the state is modelled:

- A configuration block is an object with `prev`, `next`, `parent` and `child`, of which only the
  first sibling carries `parent`. A ghost `Memory` records the blocks, a `Spot` is a position in
  the linked forest, and `CursorOf` gives the position in the functional forest. The pointer
  methods move a `Spot`; their contracts say what happens to its cursor.
- A library handle is an object with its count, dependencies and `next`. `Valid(outside)` says
  that every count is the references held from outside plus the occurrences in the dependencies of listed
  handles. File system and loaders answer through a `Request`.
- Text is NUL-free, as C strings are; words have exactly 32 or 64 bits.

Where the code and its comments disagree, the code is modelled:

- The matchers do not accept everything their comment describes: `GreedyMatcher.Misses` finds a
  missed text for every pattern that is not decisive, `BacktrackMisses.Misses` for every one that
  is not resolved. The return to the saved point in `src/util.c` leaves the escape flag set
  (`BacktrackMisses.EscapeMisses`).
- `src/irc.c:383` speaks of servers that end lines with CR only; nothing is delivered without an LF
  (`IrcFraming.CrOnlyWaits`).
- `src/tconfig.c:176` looks for the end of the text behind a C comment by testing the pointer. A
  comment that is not closed in a text that ends in its opening or in CR LF leads the reader past
  the terminating NUL, the outcome `Overrun` (`TconfigOverrun.OverrunIff`).
- `md2_update_chksum` follows the reference code, as its comment says, and not the text of RFC 1319:
  the two agree on a block exactly when the checksum before it is zero (`Md2.TextIff`).

## Model

| member | source | states |
|---|---|---|
| TconfigRoundTrip.RoundTrip | src/tconfig.c:397-526 | parsing the printed form of any non-empty forest of printable, sibling-distinct entries gives exactly that forest |
| TconfigRoundTrip.TokenRead | src/tconfig.c:241-334 | a printed line is read as one token with its two strings, at any place in a text |
| TconfigRoundTrip.Looks | src/tconfig.c:405-515 | the printed text of a leaf and a parent with one child, character by character |
| TconfigImage.OneBlock | src/tconfig.c:241-334 | a file of one block comes back if and only if key and value are printable: the conditions of the round trip are exact |
| TconfigImage.Provenance | src/tconfig.c:336-385 | every pair of a returned forest was read as a token, and no two siblings carry the same pair |
| TconfigImage.ParseInImage | src/tconfig.c:92-391 | whatever the text, the forest returned has distinct siblings and only strings a token can have |
| TconfigImage.NoValue | src/tconfig.c:281-297 | a key with an empty value is printed as a line that the reader refuses |
| TconfigOverrun.OverrunIff | src/tconfig.c:137-180 | the reader steps past the NUL if and only if it accepts the text up to a C comment that is never closed, and the text ends with the opening or in CR LF |
| TconfigOverrun.BlockCommentIff | src/tconfig.c:144-174 | the scan of a C comment ends behind its first closing; without one it ends on the NUL if and only if the text ends with the opening or in CR LF, and else it is an error |
| TconfigOverrun.LineCommentIff | src/tconfig.c:181-216 | a `//` comment ends at the first CR or LF: on an LF, on the CR of a CR LF, on the character behind a bare CR; the text is over exactly when there is none or the CR is its last character |
| TconfigOverrun.LineCommentSkipped | src/tconfig.c:181-216 | reading a text from a `//` comment on is reading it from behind the line end on, or from the second character behind a bare CR |
| TconfigOverrun.BlockCommentSkipped | src/tconfig.c:137-174 | reading a text from a C comment on is reading it from behind its first closing on |
| TconfigOverrun.OpeningOverruns | src/tconfig.c:138-141 | every accepted text, the empty one included, overruns with an opening behind it |
| TconfigText.Scan | src/tconfig.c:259 | the first position with a stop character |
| TconfigGrammar.TokenIff | src/tconfig.c:241-334 | at any place of any text, a token is read if and only if there are two words with only spaces and tabs between them, and it has these strings |
| TconfigGrammar.WordIff | src/tconfig.c:247-279 | a word is quoted on one line or ends in front of a stop character, with exactly the characters between |
| TconfigGrammar.WordRefused | src/tconfig.c:247-267 | what is not a word is refused: a quote that is not closed on its line, or a bare word that nothing ends |
| TconfigGrammar.ValueRefused | src/tconfig.c:281-324 | a key without a value is refused for the end of the text, the end of the line, or the bad word behind it |
| TconfigGrammar.TokenEntered | src/tconfig.c:241-387 | a token goes into the list the reader is in, and reading goes on behind it |
| TconfigGrammar.BlanksSkipped | src/tconfig.c:219-240 | blanks and line ends of any kind between tokens change nothing |
| TconfigText.Find | src/tconfig.c:342-363 | the first sibling with both strings, or none |
| TconfigReader.FileToTconfig | src/tconfig.c:78-395 | the blocks built for any text are linked correctly and are the forest of the functional reader; errors and overruns are the same |
| TconfigReader.ReadOneWord | src/tconfig.c:244-275 | the in-place scan of a quoted or bare word is the functional one, errors included |
| TconfigReader.ReadPair | src/tconfig.c:242-334 | key, blanks and value are the token of the functional reader |
| TconfigReader.SkipBlockComment | src/tconfig.c:137-180 | where a C comment ends, with the end-of-file error |
| TconfigReader.SkipLineComment | src/tconfig.c:181-216 | where a line comment ends, with the character dropped after a bare CR |
| TconfigReader.OpenBrace | src/tconfig.c:96-112 | `{` enters the child list or links a new blank one; links of all other blocks stay |
| TconfigReader.CloseBrace | src/tconfig.c:115-127 | `}` rewinds to the block that carries the parent, and fails exactly in the outermost list |
| TconfigReader.Search | src/tconfig.c:336-363 | finds the first sibling with the pair, else stops at the last block |
| TconfigReader.EnterPair | src/tconfig.c:336-385 | joins the block that has the pair, fills a blank last block, or appends one |
| TconfigHeap.WholeValid | src/tconfig.c:114-127 | from any position, all blocks form one linked forest with the first block as head, equal to the reader's forest |
| TconfigHeap.Turn | src/tconfig.c:116-127 | climbing to the owner keeps every link, and is the closing brace of the reader |
| TconfigHeap.DownStep | src/tconfig.c:96-101 | entering an existing child list is the opening brace of the reader |
| TconfigEdit.ChildStep | src/tconfig.c:102-110 | linking a first child keeps the heap well formed and is the opening brace |
| TconfigEdit.FilledStep | src/tconfig.c:367-374 | giving a blank last block its strings keeps the heap and changes that entry only |
| TconfigEdit.AppendStep | src/tconfig.c:375-384 | appending a block keeps the heap and lengthens that list only |
| TconfigWriter.Ascend | src/tconfig.c:500-505 | going back along `prev` reaches the block that carries `parent`, and so the owner |
| TconfigWriter.Climb | src/tconfig.c:491-523 | after a last block the braces of all lists that end there are written, up to the block to print next |
| TconfigWriter.WriteDepthFirst | src/tconfig.c:397-526 | writes exactly what is left to print of the forest from any block on, and terminates |
| TconfigWriter.TconfigToFile | src/tconfig.c:530-551 | writes the recursive printed form of the whole forest |
| TconfigFree.FreeTconfig | src/tconfig.c:644-699 | every block, key and value of a forest of any shape is freed once, nothing else is, nothing freed is read, and it terminates |
| TconfigFree.FreeUp | src/tconfig.c:667-692 | the climb frees whole lists and stops at a block that has a successor |
| TconfigFree.FreeListAndAscend | src/tconfig.c:669-689 | frees one finished list and returns its owner, with nothing else freed |
| TconfigFree.FreeLevel | src/tconfig.c:669-685 | frees the blocks of a list from the right up to the one that carries `parent` |
| TconfigMerger.Merge | src/tconfig.c:727-908 | the loop over both heaps leaves the forest of the recursive merge, well linked, with the same first block, or stops where that one does; what the recursive merge adds is `TconfigMergeCount.MergeEntries` and `TconfigMergeCount.MergeGains` |
| TconfigMerger.MergeWildcard | src/tconfig.c:746-787 | the children of a wildcard are merged into every block with its key |
| TconfigMerger.MergeBelow | src/tconfig.c:761-778 | the recursive call changes the children of that block only |
| TconfigMerger.EnterParent | src/tconfig.c:789-840 | goes to the child list of the block with both strings or of a new one |
| TconfigMerger.MakeParent | src/tconfig.c:809-836 | a new parent block with one blank child, in the place of a blank last block or behind the list |
| TconfigMerger.MergeLeafBlock | src/tconfig.c:844-886 | the list becomes that of the recursive merge for one leaf; what that is, `TconfigMergeCount.OneLeaf` says |
| TconfigMerger.AddBlock | src/tconfig.c:866-885 | strings go into a blank last block or a new one behind the list |
| TconfigMerger.LastBlock | src/tconfig.c:867 | the walk ends at the last block, whose key tells whether it is blank |
| TconfigMerger.HasKey | src/tconfig.c:846-862 | whether any sibling has the key, from any block of the list |
| TconfigMerger.Climb | src/tconfig.c:888-904 | both sides climb together until the source list has a next block or the merge is done |
| TconfigMerge.WalkDown | src/tconfig.c:838-841 | entering a parent on both sides and going on is the recursive merge of its children, with the rest waiting |
| TconfigMergeLaws.MergeExtends | src/tconfig.c:727-908 | never overrides: every entry with strings keeps its place, its strings and in the same way its children, wildcards and marks included |
| TconfigMergeLaws.SettingKept | src/tconfig.c:553-566 | a setting looked up before a merge reads the same afterwards |
| TconfigMergeLaws.MergeGrows | src/tconfig.c:809-885 | what a merge adds to the lists that were there has a key of the source |
| TconfigMergeLaws.StoppedIff | src/tconfig.c:785-787 | a merge is ended early if and only if a wildcard ends the source list, or the last list below a parent |
| TconfigMergeLaws.ReachedSame | src/tconfig.c:739-787 | for every source and target the merge is that of the source without what stands behind such an end |
| TconfigMergeLaws.WholeIff | src/tconfig.c:739-787 | nothing of a source is cut off exactly when no parent but the last of its list ends in a wildcard |
| TconfigMergeLaws.WildcardEnds | src/tconfig.c:785-787 | whatever follows a parent whose children end in a wildcard is not merged |
| TconfigMergeLaws.MergeAbsorbs | src/tconfig.c:739-886 | afterwards every source leaf that is reached has its key there and every parent its pair, at every depth, and every block with the key of a wildcard has the children of the wildcard; for sources whose wildcards stand for no key they add |
| TconfigMergeLaws.Again | src/tconfig.c:727-908 | merging a source that is there, wildcards included, adds one block for each marked leaf, below every block that a wildcard stands for, and nothing else; for sources of which nothing is cut off, without blank blocks, whose wildcards stand for no key they add |
| TconfigMergeLaws.TwiceIff | src/tconfig.c:727-908 | for sources without blank blocks, whose wildcards stand for no key they add: merging twice is merging once if and only if no marked leaf is reached below blocks that are there; without wildcards, if and only if no leaf is marked |
| TconfigMergeLaws.AgainIff | src/tconfig.c:727-908 | for any source, a merge changes nothing if and only if all that is reached of the source is there and has no marked leaf to add |
| TconfigMergeLaws.WildcardLate | src/tconfig.c:757-783 | a wildcard does not reach the block with its key that the same merge adds behind it: a second merge changes it, unless it has all the wildcard asks for |
| TconfigMergeLaws.FitsIff | src/tconfig.c:746-842 | for such sources in which no parent is given what another block gives: the exact condition under which a merge comes to its end, wildcards and marked leaves included; matched parents have children, and no owned blank list has to become a parent |
| TconfigMergeCount.MergeEntries | src/tconfig.c:727-908 | for every source without blank blocks and every target: the list keeps its entries and gets the missing ones behind them, each once, in the order of the source; missing is a marked leaf, a leaf whose key neither the target nor an earlier block has, and a parent whose pair neither the target has nor an earlier block put there |
| TconfigMergeCount.OneLeaf | src/tconfig.c:844-886 | a leaf with the mark `@` always comes into the list, under its key without the mark; another one if and only if no block has its key |
| TconfigMergeCount.MergeDistinct | src/tconfig.c:727-908 | without marked leaves, no list at any depth gets two blocks with the same strings |
| TconfigMergeCount.MergeGains | src/tconfig.c:727-908 | a first merge adds exactly the missing blocks at every depth, below every block that a wildcard stands for too, counted on source and target alone; only what stands below a blank block that becomes a parent goes |
| TconfigMergeCount.AddsMissing | src/tconfig.c:809-886 | what is missing when a block's turn comes is what was missing from the target at the start |
| TconfigDefaults.LoadWithDefaults | src/config_engine.c:63-82 | reading both texts and merging gives the merged forest under the head of the configuration; when it comes to its end, and by how many blocks it grows |
| TconfigDefaults.ReaderFits | src/config_engine.c:63-82 | for defaults read from a text without blank blocks and marked keys, whose wildcards stand for no key they add, the merge comes to its end if and only if they fit |
| TconfigDefaults.ParseTidy | src/tconfig.c:365-385 | a text yields blank blocks at the ends of lists only |
| TconfigDefaults.ReaderMakes | src/tconfig.c:336-385 | what the reader returns meets what the merge laws ask for |
| TconfigDefaults.ReaderAdds | src/config_engine.c:63-82 | for two texts, the defaults without blank blocks and marked keys: the merged lists hold nothing twice, the missing entries stand behind those of the configuration, and the number of blocks grows by those missing |
| UserFile.UsersToTconfig | src/user.c:59-186 | the blocks built for any user list are well linked and are its forest, in order |
| UserFile.AllFields | src/user.c:59-186 | the block of a user with all fields has these eight children, with these keys, in this order |
| UserFile.PutField | src/user.c:97-105 | a field that is there fills the blank block and leaves a new blank one |
| UserFile.TakeChild | src/user.c:364-408 | a child sets the field its key names, and only the first time |
| UserFile.NewUserFromBlock | src/user.c:344-416 | a block becomes the user its children describe, or none without the key `user` |
| UserRoundTrip.SaveAndLoad | src/user.c:281-341 | saving, printing, reading and rebuilding gives every user back in order, without real names, and without console flags for those who have nothing else |
| UserRoundTrip.LoadUsers | src/user.c:443-477 | the users of a forest are those of its `user` blocks, in order |
| UserRoundTrip.FilledIff | src/user.c:162-172 | a blank block is left behind exactly for users with some field but no flags |
| UserRoundTrip.RestoredIff | src/user.c:82-89 | a printable user is restored exactly, unless console flags are all it has |
| UserRoundTrip.EmptyFileBlank | src/tconfig.c:78-92 | an empty file is read as one block without strings, which the loop over users cannot take |
| HandleInvariant.Determined | libltdl/ltdl.c:1890-1921 | what is held from outside decides which handles are listed and with what counts |
| HandleInvariant.ListedIsHeld | libltdl/ltdl.c:959-978 | every listed handle is held, directly or through a chain of dependencies, and lists its dependencies |
| HandleInvariant.NoLeak | libltdl/ltdl.c:1897-1921 | nothing stays listed once nothing is held |
| HandleInvariant.Register | libltdl/ltdl.c:1443-1453 | a new handle in front keeps the accounting and takes over the references to its dependencies |
| HandleInvariant.Unlink | libltdl/ltdl.c:1901-1908 | taking out the last reference hands the dependencies back and keeps the accounting |
| HandleInvariant.Recount | libltdl/ltdl.c:378-384 | one more or one less reference keeps the accounting |
| ModuleSearch.OpensFirst | libltdl/ltdl.c:1585-1638 | a call whose modules have no dependencies opens the first name that is listed or loads, over all its requests in order, preloaded before file, and lists nothing else |
| ModuleSearch.LoadsSteps | libltdl/ltdl.c:914-939 | the dependencies of an archive are exactly what its calls find, last one first, each in what the calls before it leave |
| ModuleSearch.LoadsAll | libltdl/ltdl.c:914-939 | dependencies that are files that load are all opened, each once, in reverse order |
| ModuleSearch.ArchiveOpens | libltdl/ltdl.c:1350-1398 | an archive with such dependencies whose first name loads is listed under that name with all of them, and nothing else is listed |
| ModuleSearch.OpensTried | libltdl/ltdl.c:1585-1638 | whatever is opened has a name that was tried; when nothing is, no name that was tried loads |
| ModuleSearch.OpensFrame | libltdl/ltdl.c:1585-1638 | what was listed stays listed; a call that fails leaves the same names |
| HandleRegistry.Run | libltdl/ltdl.c:1585-1638 | over every run of opens and closes by a client that closes what it holds, the accounting holds and no invalid handle is met |
| HandleRegistry.OpenAndClose | libltdl/ltdl.c:1870-1931 | opening and closing again leaves the same handles with the same counts, names and dependencies, whatever was loaded in between |
| HandleRegistry.CloseAll | libltdl/ltdl.c:1870-1931 | closing everything that is held empties the registry |
| HandleRegistry.Registry.Dlclose | libltdl/ltdl.c:1870-1931 | gives up one reference, closes dependencies recursively, terminates; an unlisted handle is refused and changes nothing |
| HandleRegistry.Registry.UnloadDeplibs | libltdl/ltdl.c:959-978 | gives up one reference to each dependency and never meets an invalid handle |
| HandleRegistry.Registry.Lookup | libltdl/ltdl.c:1875-1888 | finds the handle and the one before it, exactly when it is listed |
| HandleRegistry.Registry.Count | libltdl/ltdl.c:378-384 | a changed count keeps the accounting |
| HandleRegistry.Registry.Drop | libltdl/ltdl.c:1897-1908 | unlinking keeps the chain of the others and hands over the dependencies |
| HandleRegistry.Registry.FindByName | libltdl/ltdl.c:368-376 | finds the listed handle with the name, if and only if there is one |
| HandleRegistry.Registry.TryallDlopen | libltdl/ltdl.c:353-467 | fails exactly when the name is not listed and no loader opens it; takes the new handle exactly when a loader does |
| HandleRegistry.Registry.FindModule | libltdl/ltdl.c:520-560 | the first name that is listed or loads decides |
| HandleRegistry.Registry.RegisterHandle | libltdl/ltdl.c:1443-1453 | the handle is listed with one reference, and file names stay distinct |
| HandleRegistry.Registry.LoadDeplibs | libltdl/ltdl.c:914-939 | dependencies are opened last one first; those of the handle are what the search of `ModuleSearch.Loads` finds |
| HandleRegistry.Registry.LoadDeplib | libltdl/ltdl.c:928-935 | one call for a dependency; it is put behind the others if it was found |
| HandleRegistry.Registry.PlaceModule | libltdl/ltdl.c:1367-1397 | the first name that is listed or loads is the answer; a failed or already listed module gives its dependencies back, a new one keeps them |
| HandleRegistry.Registry.OpenArchive | libltdl/ltdl.c:1350-1398 | the dependencies of the archive, then the answer to its own names in what is listed with them, and what stays listed; a new handle has exactly these dependencies |
| HandleRegistry.Registry.OpenPlain | libltdl/ltdl.c:1399-1441 | the answer to one name, without dependencies |
| HandleRegistry.Registry.TryDlopen | libltdl/ltdl.c:1252-1453 | one request: the preloaded module if it is listed or loads, else the file; the name found, the names of its dependencies and all names listed afterwards are those of `ModuleSearch.Answers` |
| HandleRegistry.Registry.Dlopenext | libltdl/ltdl.c:1585-1638 | the first request that finds a module decides, or one that fails on a file that is there, as in `ModuleSearch.Opens`; a failed open leaves handles, names, counts and dependencies as they were |
| Argz.PackedUnique | libltdl/argz.c:49-76 | the packed bytes determine the entries |
| Argz.AtEntry | libltdl/argz.c:186-216 | what the bytes around an entry are |
| Argz.Halves | libltdl/argz.c:140-182 | cutting the bytes at an entry cuts the vector there |
| Argz.SplitPlain | libltdl/argz.c:88-136 | splitting leaves no delimiter in an entry and no empty entry but the last |
| Argz.SplitJoined | libltdl/argz.c:220-233 | splitting the joined entries of a plain vector gives them back |
| Argz.SplitJoinedIff | libltdl/argz.c:88-136 | joining and splitting is the identity exactly for plain vectors |
| ArgzVector.Vector.Append | libltdl/argz.c:49-76 | the bytes grow by the appended ones; the tracked length is theirs |
| ArgzVector.Vector.Add | libltdl/argz.c:81-84 | one entry more at the end |
| ArgzVector.Vector.CreateSep | libltdl/argz.c:88-136 | the folded bytes are the packed entries of the split string, with the length written |
| ArgzVector.Vector.Next | libltdl/argz.c:186-216 | the start of the next entry, from anywhere inside an entry |
| ArgzVector.Vector.Insert | libltdl/argz.c:140-182 | growing, moving the rest and filling the gap puts the entry in front of the one pointed into |
| ArgzVector.Vector.ScanBack | libltdl/argz.c:151-155 | finds the first byte of the entry pointed into |
| ArgzVector.Vector.InsertInOrder | libltdl/ltdl.c:1672-1690 | the vector becomes the sorted insertion of the entry |
| ArgzVector.Vector.Stringify | libltdl/argz.c:220-233 | the bytes become the joined form; the loop leaves the block exactly for fewer than two bytes |
| ArgzVector.Vector.Count | libltdl/argz.c:239-254 | the number of entries |
| ArgzVector.Vector.JoinAndSplit | libltdl/argz.c:88-136 | joining in place and splitting again restores the bytes if and only if the vector is plain |
| ArgzVector.OutputSplit | libltdl/argz.c:97-124 | the one-pass folding of delimiters writes exactly the packed split |
| ArgzVector.JoinedPacked | libltdl/argz.c:220-233 | joining changes the inner terminators only |
| ArgzVector.StringifiedIff | libltdl/argz.c:224-232 | the result is the joined string exactly when the first entry is not empty |
| ArgzVector.LessIff | libltdl/ltdl.c:1683-1686 | the order is that of strcmp: at the first difference one string has the lesser character or its end |
| ArgzVector.LessTotal | libltdl/ltdl.c:1683-1686 | this order is total |
| ArgzVector.LessTransitive | libltdl/ltdl.c:1683-1686 | and transitive |
| ArgzVector.InsertedSorted | libltdl/ltdl.c:1672-1690 | the vector stays strictly sorted and gains exactly the entry |
| ArgzVector.InsertedAt | libltdl/ltdl.c:1680-1689 | in any vector, sorted or not, the entry goes behind those before it that are less, up to the first that is not, unless that is the entry |
| ArgzVector.InsertedAllSorted | libltdl/ltdl.c:1672-1690 | the same for any list of names |
| ArgzVector.SortedUnique | libltdl/ltdl.c:1672-1690 | only one sorted vector has given entries |
| ArgzVector.AnyOrder | libltdl/ltdl.c:1672-1690 | neither the order of the names nor repetitions matter |
| PathCanon.CanonicalizePath | libltdl/ltdl.c:564-622 | the filled buffer is the canonical path, no longer than the input |
| PathCanon.ResultTidy | libltdl/ltdl.c:580-611 | no `//`, no `/:`, no `/` at the end and no `:` at the start |
| PathCanon.CanonElements | libltdl/ltdl.c:564-622 | the one-pass loop treats the path element by element |
| PathCanon.SqueezedAway | libltdl/ltdl.c:600-611 | an element vanishes exactly when it is slashes only |
| PathCanon.IdempotentIff | libltdl/ltdl.c:583-589 | canonicalising again changes nothing, and no element is empty, exactly when no slashes-only element stands behind a real one |
| PathCanon.AgainIff | libltdl/ltdl.c:583-589 | the same for a list of elements |
| SearchPath.SplitIsFolded | libltdl/argz.c:88-136 | splitting is cutting at every separator and folding the empty elements |
| SearchPath.Searched | libltdl/ltdl.c:673-681 | the directories searched are the real elements in order, and one empty name more exactly when the path ends in slashes or has none |
| SearchPath.DirectoriesOf | libltdl/ltdl.c:673-681 | canonicalising and splitting leaves those directories in the vector |
| Wildcards.SampleMatches | src/util.c:18-28 | every pattern that does not end in a lone backslash has a matching text |
| Wildcards.SampleIsShortest | src/util.c:18-28 | and that one is a shortest one |
| Wildcards.OpenMatchesNothing | src/util.c:25 | a pattern that ends in a lone backslash matches nothing |
| WildcardSteps.LedStep | src/util.c:72-79 | behind the scanned part of a word the rest matches, if what follows `%` leads to a space |
| WildcardSteps.WordCovers | src/util.c:72-79 | a match behind a `%` further on is one behind the scanned part of the word too, or still further on |
| WildcardSteps.SpacesStep | src/util.c:80-96 | behind all leading spaces the rest matches, if it takes no space |
| GreedyMatcher.TrollMatchwilds | src/troll_lib.c:28-116 | the cursor loop returns what the recursive forward pass decides; NULL never matches |
| GreedyMatcher.Sound | src/troll_lib.c:17-27 | what it accepts matches under the documented language, all operators included |
| GreedyMatcher.Complete | src/troll_lib.c:28-116 | a decisive pattern finds every match, all operators included |
| GreedyMatcher.Misses | src/troll_lib.c:28-116 | any other pattern that can match at all misses a match |
| GreedyMatcher.DecidesIff | src/troll_lib.c:28-116 | for every pattern: it agrees with the documentation on every text if and only if the pattern is decisive or ends in a lone backslash |
| GreedyMatcher.SimpleDecided | src/troll_lib.c:28-116 | literals, `?` and escapes with an optional star at the end are decided |
| GreedyMatcher.WordMisses | src/troll_lib.c:19-21 | every pattern that ends in `%` misses a match |
| GreedyMatcher.SpacesMiss | src/troll_lib.c:22-23 | every pattern with `~` before something that takes a space, at any place, misses a match |
| BacktrackMatcher.Matchwilds | src/util.c:29-133 | the loop with its saved cursors terminates and returns what the recursive form decides |
| BacktrackMatcher.Sound | src/util.c:18-28 | what it accepts matches from here or from the saved point, the stale escape flag included |
| BacktrackMatcher.AcceptsMore | src/util.c:29-133 | whatever the forward pass accepts is accepted |
| BacktrackMatcher.Complete | src/util.c:29-133 | a resolved pattern finds every match, from here or from the saved point, all operators included |
| BacktrackMatcher.ResolvedDecides | src/util.c:29-133 | it agrees with the documentation on every text for every resolved pattern |
| BacktrackMisses.Misses | src/util.c:29-133 | any other pattern that can match at all misses a match, unless it is doubtful: a `%` behind a star in front of a letter whose rest is in order but cannot start earlier |
| BacktrackMisses.WordMisses | src/util.c:20-22 | every pattern that ends in `%` misses a shortest match |
| BacktrackMisses.SpacesMiss | src/util.c:23-24 | every pattern with `~` before something that takes a space, at any place, misses a shortest match |
| BacktrackMisses.DecidesIff | src/util.c:29-133 | for every pattern that is not doubtful: it agrees with the documentation on every text if and only if the pattern is resolved or ends in a lone backslash |
| BacktrackMisses.NotDoubtful | src/util.c:29-133 | no pattern without `%` behind a star is doubtful |
| BacktrackMatcher.StarlessIff | src/util.c:29-133 | without a star it does so exactly for the patterns that the forward pass decides |
| BacktrackMisses.EscapeMisses | src/util.c:97-112 | the stale escape flag spoils every pattern with an escape between the target of a star and the next star |
| IrcFraming.Connection.IrcIn | src/irc.c:331-409 | the lines of the pending bytes and the received ones are delivered, and the rest is kept; an error drops it |
| IrcFraming.Connection.TakeLines | src/irc.c:371-406 | all complete lines are taken and the rest stays |
| IrcFraming.TakeLine | src/irc.c:373-385 | one line and the buffer behind its line ends |
| IrcFraming.TakesMessages | src/irc.c:371-406 | taking lines out of a buffer takes the same messages out of any stream that goes on |
| IrcFraming.ReceiveAll | src/irc.c:331-409 | for any pieces, the lines with content are the messages of the whole stream, and all lines are those of reading piece by piece |
| IrcFraming.ReceiveStream | src/irc.c:331-409 | a stream of non-empty terminated messages is delivered message by message, whatever the pieces, with nothing left |
| IrcFraming.PrefixLines | src/irc.c:371-406 | any start of such a stream yields exactly the first messages |
| IrcFraming.PiecesIff | src/irc.c:331-409 | for every stream: all ways to cut it deliver the same lines if and only if no line end follows an LF but the last one |
| IrcFraming.EmptyLinesDiffer | src/irc.c:383-385 | so an empty line between two messages is delivered or not as the pieces fall |
| IrcParse.ParseIrcLine | src/irc.c:89-269 | the index loops split any line as the functional parser does, overruns included |
| IrcParse.ReadPrefix | src/irc.c:120-163 | server name, own nick, or nick, user and host |
| IrcParse.ReadParams | src/irc.c:175-223 | the parameters and their string, up to trailing text or the end |
| IrcParse.ReadRest | src/irc.c:230-269 | the words of the trailing text and the text |
| IrcParse.ParamsRead | src/irc.c:175-223 | rendered parameters come back one by one |
| IrcParse.ParamsKeep | src/irc.c:175-223 | for every line that is not overrun: what is taken for parameters and what is left are the text, character by character, and the words joined are what is taken or that without a last space |
| IrcParse.TrailingRead | src/irc.c:230-269 | the trailing text comes back whole, and its words joined are that text but for a last space |
| IrcParse.TrailingWords | src/irc.c:230-269 | words joined by single spaces come back as those words |
| IrcParse.Recovers | src/irc.c:102-269 | a message rendered as in section 2.3.1 of RFC 1459 is read back field by field, with the full trailing text |
| IrcParse.DoneIff | src/irc.c:112-223 | for every line: it is split without reading past its end if and only if the prefix has its space and, with a `!`, its `@`, the command its space, and the parameters an end |
| IrcParse.ParamsDoneIff | src/irc.c:176-223 | the parameter loop ends inside the text exactly at a line end, at trailing text, or with an even number of spaces at the end |
| IrcParse.NoSpaceOverruns | src/irc.c:170 | so every line without a space is read past its end |
| IrcParse.SpaceBehindOverruns | src/irc.c:193-222 | and every message without trailing text that a space follows |
| HashStream.HashState.Process | src/modules/crypto/tomcrypt_hash.h:341-377 | direct and buffered blocks together are the fold over pending and new bytes; what is left is pending, and the counter grows by the bits compressed |
| HashStream.HashState.Update | src/modules/crypto/tomcrypt_hash.h:341-377 | after any message, processing data leaves the state of the longer message |
| HashStream.ProcessTwoWays | src/modules/crypto/tomcrypt_hash.h:341-377 | from any state, two processes leave the same chaining words, counter and pending bytes as one with both data |
| HashStream.AbsorbMore | src/modules/crypto/tomcrypt_hash.h:353-374 | data behind a message only meets its unprocessed tail |
| HashStream.HashState.Finish | src/modules/crypto/sha512.c:217-249 | the one or two last blocks are the pending bytes, 0x80, zeros and the counter |
| HashStream.HashState.Done | src/modules/crypto/sha512.c:217-249 | the chaining words become those of the padded message |
| HashStream.DonePads | src/modules/crypto/md5.c:267-297 | ending block by block is padding the whole message first |
| HashStream.HashChunks | src/modules/crypto/tomcrypt_hash.h:341-377 | init, any chunks and done give the fold over the padded concatenation |
| HashStream.ZeroCountIsLeast | src/modules/crypto/sha512.c:227-245 | the padding is the shortest that reaches the length field |
| Sha512.CompressUnrolled | src/modules/crypto/sha512.c:131-153 | eight rounds per turn with rotating roles compute the 80 rounds of section 6.4.2 of FIPS 180-4 |
| Sha512.CompressSmall | src/modules/crypto/sha512.c:117-153 | the shifting loop computes the same |
| Sha512.Expand | src/modules/crypto/sha512.c:106-114 | the message schedule of the standard |
| Sha512.RoundSame | src/modules/crypto/sha512.c:119-120 | the code's sums are T1 and T2 of the standard |
| BitLogic.ChSame | src/modules/crypto/sha512.c:82 | the xor-saving Ch is the standard's |
| BitLogic.MajSame | src/modules/crypto/sha512.c:83 | the xor-saving Maj is the standard's |
| BitLogic.FSame | src/modules/crypto/md5.c:39 | F is that of RFC 1321 and RFC 1320 |
| BitLogic.Md5GSame | src/modules/crypto/md5.c:40 | G is that of RFC 1321 |
| BitLogic.Md4GSame | src/modules/crypto/md4.c:53 | G is that of RFC 1320 |
| Sha512Hash.Hash | src/modules/crypto/sha512.c:174-259 | for any chunking of fewer than 2^64 bits, the digest is the hash of FIPS 180-4; for more, that of the code's padding |
| Sha512Hash.CompressBlock | src/modules/crypto/sha512.c:95-156 | either form of the compressor computes the function that the hash folds |
| Sha512Hash.FieldAgrees | src/modules/crypto/sha512.c:239-248 | the code's length field is the 128-bit one if and only if the length is below 2^64 bits |
| Sha512Hash.PaddingAgrees | src/modules/crypto/sha512.c:239-248 | the same for the whole padded message |
| Sha512Vector.Abc | src/modules/crypto/sha512.c:274-283 | the digest of "abc" is that of the self test and of FIPS 180-4: it depends on every round, constant and rotation |
| Sha512Vector.OutputAt | src/modules/crypto/sha512.c:253-255 | the digest is the eight words, eight bytes each |
| Md5.CompressUnrolled | src/modules/crypto/md5.c:143-213 | the 64 written-out steps compute the rounds of section 3.4 of RFC 1321 |
| Md5.CompressSmall | src/modules/crypto/md5.c:122-213 | the rotating table-driven loops compute the same |
| Md5.MacroStep | src/modules/crypto/md5.c:85-95 | a step of the macros is a step of the RFC with the variables in their places |
| Md4.Compress | src/modules/crypto/md4.c:78-157 | the 48 written-out steps compute the three rounds of RFC 1320 |
| MdHash.Hash5 | src/modules/crypto/md5.c:233-307 | for any chunking the digest is the hash of RFC 1321 |
| MdHash.Hash4 | src/modules/crypto/md4.c:174-247 | for any chunking the digest is the hash of RFC 1320 |
| MdHash.CompressBlock5 | src/modules/crypto/md5.c:103-216 | either form of the compressor computes the function that the hash folds |
| MdHash.CompressBlock4 | src/modules/crypto/md4.c:78-157 | so does the one form for MD4 |
| MdHash.FieldAgrees | src/modules/crypto/md5.c:295-296 | the 64-bit counter holds exactly the low length bytes the RFC asks for, for any length |
| MdVectors.Abc5 | src/modules/crypto/md5.c:328-330 | the MD5 digest of "abc" is that of the self test and of section A.5 of RFC 1321 |
| MdVectors.Abc4 | src/modules/crypto/md4.c:268-270 | the MD4 digest of "abc" is that of the self test and of section A.5 of RFC 1320 |
| Md2.Hash | src/modules/crypto/md2.c:101-184 | for any chunking the one pass gives the two-pass digest of RFC 1319: pad, checksum, compress |
| Md2.Md2State.Process | src/modules/crypto/md2.c:120-143 | after any message, processing data leaves the state of the longer message |
| Md2.Md2State.Done | src/modules/crypto/md2.c:151-184 | padding, checksum block and digest are those of the definition |
| Md2.Md2State.UpdateChecksum | src/modules/crypto/md2.c:60-72 | the in-place loop is the checksum recurrence over one block |
| Md2.Md2State.Compress | src/modules/crypto/md2.c:74-94 | the in-place 18 rounds over 48 bytes are those of the definition |
| Md2.ChecksumBlock | src/modules/crypto/md2.c:135-139 | the checksum of a message goes on block by block |
| Md2.CompressBlock | src/modules/crypto/md2.c:135-139 | so does the compression, independently of it |
| Md2.CompressedIff | src/modules/crypto/md2.c:74-94 | the compressed state, without the order of the steps: eighteen rows of 48 bytes, each byte xored with the table entry that the byte before it in the new row selects, the last byte and the number of the row carried on |
| Md2.CheckPart | src/modules/crypto/md2.c:60-72 | the checksum bytes in the same way |
| Md2.TextIff | src/modules/crypto/md2.c:65-71 | the checksum of the code and that of the text of RFC 1319 agree on a block exactly when the checksum before it is zero |
| Words.LoadStore32 | src/modules/crypto/tomcrypt_macros.h:22-52 | loading and storing a word are inverse in both byte orders |
| Words.BigEndianValue | src/modules/crypto/tomcrypt_macros.h:54-58 | big-endian bytes read back give the number |
| Words.CountIsBigEndian | src/modules/crypto/tomcrypt_macros.h:54-58 | the stored counter is the big-endian field of the standard |
| Words.CountIsLittleEndian | src/modules/crypto/tomcrypt_macros.h:32-36 | the stored counter is the little-endian field of the RFCs |
| Blowfish.DecryptEncrypt | src/modules/crypto/blowfish.c:413-495 | decryption undoes encryption on two words, for every K and S |
| Blowfish.EncryptDecrypt | src/modules/crypto/blowfish.c:413-495 | encryption undoes decryption |
| Blowfish.Inverse | src/modules/crypto/blowfish.c:413-495 | both on 8-byte blocks with the big-endian loads and stores |
| Blowfish.TimesUndone | src/modules/crypto/blowfish.c:555-559 | any number of encryptions is undone one decryption at a time |
| Blowfish.FReads | src/modules/crypto/blowfish.c:377-381 | F adds the entries of the first two tables at the two high bytes, xors that of the third and adds that of the fourth, modulo 2^32 |
| Blowfish.NoTables | src/modules/crypto/blowfish.c:413-434 | with empty tables the even keys are left on one half and the odd keys on the other, all eighteen of them |
| Blowfish.Schedule.Encrypt | src/modules/crypto/blowfish.c:413-434 | the four-rounds-per-turn loop is the cipher, in place or not |
| Blowfish.Schedule.Decrypt | src/modules/crypto/blowfish.c:475-495 | the downward loop is the cipher with K reversed, in place or not |
| Blowfish.Schedule.ThereAndBack | src/modules/crypto/blowfish.c:555-559 | n encryptions and n decryptions in one block leave it unchanged |
| BlowfishSetup.Setup | src/modules/crypto/blowfish.c:308-375 | refused lengths and rounds change nothing; otherwise K and S are the schedule of the key, each pair of words the encryption of the pair before under the new words before and the old ones from there on |
| BlowfishSetup.NextWord | src/modules/crypto/blowfish.c:329-335 | the word for entry x is the key bytes at (4x+z) modulo the length |
| BlowfishSetup.LoadKey | src/modules/crypto/blowfish.c:328-337 | the running index mixes exactly those words into P |
| BlowfishSetup.FeedTables | src/modules/crypto/blowfish.c:346-368 | the two loops are one chain of encryptions over K and S |
| BlowfishSetup.ScheduledRows | src/modules/crypto/blowfish.c:328-368 | the same for all 521 pairs, from P xor the key bytes at (4x+z) modulo the length and T on, without naming the steps of the code |
| BlowfishSetup.WrittenOnce | src/modules/crypto/blowfish.c:351-368 | each entry is overwritten once, by half of its own step's encryption |
| BlowfishSetup.SameMixIff | src/modules/crypto/blowfish.c:328-337 | two keys mix the same exactly when the first 72 bytes of their repetitions agree |
| BlowfishSetup.DoubledKey | src/modules/crypto/blowfish.c:328-368 | a key and the same key twice give the same schedule |

## Left out

- Files, sockets, the select loop, DNS, DCC, logging and the script bindings: input and output are parameters.
- Memory exhaustion, `BUFFER_SIZE` and other C sizes, and the receive buffer that all connections share: one connection has its own.
- TconfigMerger.Merge: the list merged into may be blank only in its last block, as the reader leaves it; when the merge clears the `parent` of the first block of a child list (`src/tconfig.c:825`) nothing leads back from that list, and the model stops there with `LostParent`.
- TconfigMerger.MakeParent: it stops with `LostParent` in that case, too.
- TconfigMergeLaws.MergeAbsorbs: sources without blank blocks, whose wildcards stand for no key that the source adds; `TconfigMergeLaws.WildcardLate` shows why.
- TconfigMergeLaws.Again: the same, and nothing of the source is cut off; `TconfigMergeLaws.AgainIff` is for all sources without blank blocks.
- TconfigMergeLaws.TwiceIff: the same sources; the condition speaks of the list that the first merge leaves, which is there before the second.
- TconfigMergeLaws.FitsIff: the same sources, in which no parent is given what another block of its list gives.
- TconfigMergeCount.MergeEntries: sources without blank blocks.
- TconfigMergeCount.MergeGains: the sources of `TconfigMergeLaws.FitsIff`; a source with a parent twice meets in the second what the first put there.
- TconfigMergeCount.MergeDistinct: sources without blank blocks and marked leaves; a marked leaf is put beside one with its key by design.
- TconfigImage.OneBlock: that the conditions of the round trip are exact is proved for files of one block.
- TconfigDefaults.LoadWithDefaults: the defaults are freed after the merge; `TconfigFree.FreeTconfig` models that on its own.
- TconfigReader.FileToTconfig: the line numbers in error messages are not modelled.
- TconfigWriter.TconfigToFile: blank blocks have no strings to print, so forests are filled.
- UserRoundTrip.SaveAndLoad: the list is not empty, since an empty one writes no file; users whose block cannot be printed are those of `UserRoundTrip.FilledIff`.
- HandleRegistry.Run: resident handles, opening the program itself and `lt_dlexit` step outside the reference counts; loaders, archive parsing and search paths are the contents of a `Request`.
- HandleRegistry.Registry.TryDlopen: which names are built and searched for is the content of the `Request`; it is not stated in which order handles stand in the list, nor which dependencies stay listed beside a module that one of its own dependencies has already opened.
- HandleRegistry.Registry.FindModule: the names and their order are a parameter.
- HandleRegistry.Registry.OpenArchive: reading the archive file, and its failure, are a parameter.
- HandleRegistry.Registry.OpenPlain: the search through the directories, which ends at the first readable file, is one probe.
- PathCanon.CanonicalizePath: no second directory separator, as on POSIX systems.
- ArgzVector.Vector.Insert: the caller's pointer lies in the vector, and no allocation fails.
- BacktrackMisses.DecidesIff: for doubtful patterns, as `*a%ab*`, being resolved is enough but not shown to be needed; where the `%` looks for the star's own target, a return to the star can make up for a first place that was wrong.
- BacktrackMisses.Misses: the same patterns.
- BacktrackMisses.EscapeMisses: the same patterns.
- IrcFraming.Connection.IrcIn: the bytes received hold no NUL, which would end the string early and leave bytes of this call behind it for the next one.
- IrcFraming.ReceiveAll: the same.
- IrcParse.ParseIrcLine: logging, the answer to PING, numeric 302 and the triggers come after the splitting and are not modelled.
- HashStream.HashState.Process: the compression is a function of words and block, the one both forms of the compressors are proved equal to.
- Blowfish.Schedule.Encrypt: the tables P and S and the substitution table of MD2 are arbitrary; only the constants of SHA-512, MD5 and MD4 are given.
- Inline-assembly and compiler-specific variants of the load, store and rotate macros, the self-test vectors other than "abc" for SHA-512, MD5 and MD4, and any claim about cryptographic strength.
- `tconfig_foreach_depth_first`, `tconfig_isolate`, `src/t_timer.c`, `libltdl/slist.c` and the lists of channels, bans and triggers: not part of this model.
