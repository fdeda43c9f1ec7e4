# anyldap, modelled and proved in Dafny

anyldap is an LDAP library: an in-memory directory with a diff and a patch, the
LDIF and BER formats around it, and the client, server and proxy protocols. This
project models its core and proves what it is for. `dafny verify dfyconfig.toml`
checks everything.

## The parts

* **Directory, difference and patch** (`Attributes`, `DistinguishedName`,
  `Operations`, `Directory`, `EntryHelpers`, `TreeDiff`, `Patching`, `TreeRuns`).
  The tree is on the heap, entries with parent and children; each tree has a ghost
  view, the map from names to attributes that it stands for, and every method is
  proved against a function on that map. `Patching.DiffThenPatch` is the main
  result: the difference of two trees replayed on the first makes it the second.
* **Change LDIF** (`Base64`, `Ldif`, `LdifDelta`, `LdifRoundTrip`, `LdifPrint`,
  `LdifFolding`, `LdifRules`, `LdifDiffPatch`). The line-driven parser is a class proved against a function on
  states; printing is undone by it for input cut into any chunks, and
  `LdifDiffPatch.DiffToPatch` puts ldifdiff and ldifpatch together.
* **Names** (`NameText`, `PyDn`, `NameRules`): printing and parsing, with the exact condition
  under which each name comes back.
* **BER, LDAP messages and framing** (`PureBer`, `PureLdap`, `LdapWire`, `Framing`):
  filters of any depth through the chain of decoder contexts, and the receive loop.
* **Protocols** (`Syncrepl`, `SyncreplProvider`, `AppServer`, `AppServerRuns`,
  `LdapObject`, `LdapRouting`, `Merger`): classes for the state that the source
  keeps, each method proved against a transition function, and theorems over all
  runs of these transitions, interleaved in any way.
* **Journaled entries** (`Journal`), **python-ldap's LDIF** (`PyLdif`,
  `PyLdifRoundTrip`, `PyLdifRules`), **schema** (`Schema`), **MD4** (`BlockStream`,
  `Md4Padding`, `Md4Block`, `Md4`, `Md4Vector`) and **free numbers** (`NumberAlloc`).

`Options`, `Octets` and `Sequences` hold what the others share. A character of a value stands for one
octet. Where the source walks a dictionary or a set, or sorts one only to be
reproducible, the model takes the elements in any order, so what is proved holds
for every order.

## Where the code does less than one might expect

Each of these has a theorem with the exact condition, or a concrete witness.

* The receive loop stops at a frame whose tag it does not know until more data
  comes, so what has been handled can depend on the chunks
  (`Framing.ChunkIndependence`, `Framing.NoiseMakesADifference`).
* A journal with a whole-attribute delete of an attribute without values is refused
  (`Journal.ClearedTwice`), and a set that the entry holds no more still writes to
  the journal (`Journal.OldSetAddsMore`); apart from these two the journal always
  gives what the entry holds (`Journal.JournalTellsAll`).
* An application that sends after it returned is not refused for an abandon or a
  Cancel that comes later still (`AppServerRuns.RefusedExactly`).
* Collecting a search that failed raises its error and throws away the entries that
  came before it (`LdapRouting.AllHandedOut`).
* A present phase that begins with a record left over from an interrupted one can
  keep an entry that is gone (`SyncreplProvider.LeftoverRecord`).
* ldifpatch refuses ldifdiff's output when an entry to be added holds no value
  (`LdifDiffPatch.DiffToPatch`).
* The name of a single empty RDN prints like the empty name (`NameText.ParseText`).
* A value that starts with white space other than a space loses it in python-ldap's
  LDIF, unless it is written as base64 (`PyLdifRoundTrip.ValueReadsBack`).
* With a maximum given, the search for a free number can return one that is taken
  (`NumberAlloc.TakenIsFound`), and with a maximum below the minimum it ends only
  under the condition in `NumberAlloc.EndsExactly`.

## Model

| member | source | states |
|---|---|---|
| Attributes.PatchedMeaning | src/anyldap/entry.py:205-247 | What an entry becomes when its difference to another is applied holds the other's values for every attribute, absent counting as empty; it is the other to the letter exactly when no attribute that only the first one has holds a value |
| Attributes.Diff | src/anyldap/entry.py:205-247 | `diff` says "no difference" exactly when the attributes are equal; its modifications apply one after another without a KeyError to the first entry and give the patched one; each modification stems from an attribute of one of the two |
| Attributes.DiffStep | src/anyldap/entry.py:205-247 | A turn of any of the three loops (added, deleted and shared attributes, in any order) brings exactly one more attribute over |
| Attributes.SharedModsRun | src/anyldap/entry.py:233-245 | The Add and the Delete for an attribute both have, in that order, leave exactly the other's values and never remove a value that is not there |
| Patching.PatchEntry | src/anyldap/delta.py:81-129 | Add, Delete and Replace on an entry in place: when each raises, and the attributes left behind; a Delete that names values keeps the attribute, perhaps with none, and one that raises has taken out some of the values it names and done nothing else |
| Attributes.AppliedTo | src/anyldap/delta.py:81-129 | Which values an attribute holds once a modification is applied, for every attribute and value |
| Attributes.RaisesExactly | src/anyldap/delta.py:101-106 | A KeyError comes exactly of deleting an attribute or a value that is not there |
| Patching.Patch | src/anyldap/delta.py:220-319 | ModifyOp, AddOp and DeleteOp on the live tree do to it what `Apply` does to the map from names to attributes, with the same error otherwise, and keep it a tree; after an error nothing is changed, but for a KeyError, which leaves the modifications before it applied and its own in part |
| Patching.PatchAll | src/anyldap/_scripts/ldifpatch.py:25-28 | The loop over operations succeeds exactly when replaying them on the map does, and then the tree is the map replayed; otherwise it stands where the first failing operation left it |
| Operations.ReplayKeepsTree | src/anyldap/delta.py:220-319 | Any operations that all succeed leave a map in which every entry but the root has its parent |
| Operations.FailsExactly | src/anyldap/delta.py:220-319 | On a tree, the exact condition for each error of each operation, and what the others leave alone |
| Operations.AddsMergeAll | src/anyldap/entryhelpers.py:111-119 | Adding a missing branch in a parents-first order never fails and fills exactly that branch |
| Operations.DeletesMergeAll | src/anyldap/entryhelpers.py:121-130 | Deleting a branch in the reverse of a parents-first order never meets an entry with children, and clears exactly that branch |
| EntryHelpers.Subtree | src/anyldap/entryhelpers.py:190-211 | subtree lists the entry and everything below it, each once, an entry before what is below it |
| TreeDiff.DiffTree | src/anyldap/entryhelpers.py:132-187 | Whatever the shared list held and led to, with what is appended it leads to a directory that is the target below this entry and untouched elsewhere; no operation comes from anywhere but the two trees |
| TreeDiff.AddedBranch | src/anyldap/entryhelpers.py:111-119 | One more added branch brings that branch to the target and no other |
| TreeDiff.DeletedBranch | src/anyldap/entryhelpers.py:121-130 | One more deleted branch brings that branch to the target and no other |
| Operations.TargetIsSame | src/anyldap/entryhelpers.py:132-187 | What the first tree becomes has the second's names and, absent counting as empty, its values |
| Operations.TargetIsExact | src/anyldap/entryhelpers.py:132-187 | It is the second to the letter exactly when the entries both have lose only empty attributes and the added ones have no empty objectClass |
| Operations.SecondRoundIsExact | src/anyldap/entryhelpers.py:132-187 | What the first difference leaves over, a second one removes |
| Patching.DiffThenPatch | src/anyldap/entryhelpers.py:132-187 | For any two trees with one root name: replaying the difference on the first never raises and leaves it with the second's names and values |
| Directory.Entry.Lookup | src/anyldap/inmemory.py:54-68 | lookup returns the entry of that name if it is in the tree at or below this one, and NoSuchObject exactly otherwise |
| Directory.Entry.AddChild | src/anyldap/inmemory.py:77-93 | A new leaf, or EntryAlreadyExists and no change, on the tree and on the map it stands for |
| Directory.Entry.DeleteChild | src/anyldap/inmemory.py:104-113 | The child and everything below it goes from the map and nothing else does, or NoSuchObject |
| Directory.Entry.Delete | src/anyldap/inmemory.py:95-100 | delete refuses the root and an entry with children, and else removes exactly this entry |
| Directory.Entry.Move | src/anyldap/inmemory.py:117-152 | move of a leaf: refused for a parent that is not there; else the map loses the old name, and whatever was at the new one with all below it, and gains the entry with its RDN attributes traded; a KeyError exactly when the trade fails, and then the entry is under its new parent with the old name and the trade done up to that point |
| Directory.RenamedMeaning | src/anyldap/inmemory.py:145-151 | The trade succeeds exactly when the old RDN's values are all there, none twice, and the new one's attributes are; it takes those values out and puts the new ones in |
| Directory.FreePlace | src/anyldap/inmemory.py:134-152 | A move to a free name displaces nothing |
| Directory.Tree.ParentOf | src/anyldap/inmemory.py:77-152 | In a valid tree only the root has no parent, and every other entry's name is its RDN in front of its parent's name |
| Directory.Tree.BranchIsChild | src/anyldap/inmemory.py:54-68 | An entry below another lies in the branch of one of its children, so the descent finds it |
| Directory.Tree.ContentsWellFormed | src/anyldap/inmemory.py:23-157 | The map a valid tree stands for is a directory: all below the root, every parent present |
| TreeRuns.Make | src/anyldap/inmemory.py:54-152 | Any one of addChild, delete, deleteChild and move (of a leaf) on an entry fetched by name: the same answer as the map gives, the same effect, refused calls without any |
| TreeRuns.RunAll | src/anyldap/inmemory.py:54-152 | Over any run of these calls the tree stays valid and is the map that the same calls make, and every answer is the map's, up to a KeyError over an RDN's attributes |
| TreeRuns.AddThenDelete | src/anyldap/inmemory.py:77-113 | delete and deleteChild each undo addChild |
| TreeRuns.RenamedBack | src/anyldap/inmemory.py:145-151 | RDN attributes traded and traded back are what they were exactly when the new RDN gave no value that was there already, but for the old RDN's |
| TreeRuns.MoveThereAndBack | src/anyldap/inmemory.py:117-152 | A leaf moved to a free name and back: the directory is unchanged under exactly that condition |
| DistinguishedName.Contains | src/anyldap/protocols/ldap/distinguishedname.py:335-351 | contains climbs and compares, which answers exactly whether the one name lies at or below the other |
| NameText.EscapeLoop | src/anyldap/protocols/ldap/distinguishedname.py:15-35 | The loop computes `Escape`, which the lemmas below are about |
| NameRules.EscapeByPlace | src/anyldap/protocols/ldap/distinguishedname.py:15-35 | Escaping writes each character as its place in the text asks for by section 2.4 of RFC 4514, and none otherwise |
| NameText.UnescapeLoop | src/anyldap/protocols/ldap/distinguishedname.py:38-53 | The loop computes `Unescape`, hex pairs and the error included |
| NameRules.PairRead | src/anyldap/protocols/ldap/distinguishedname.py:38-53 | A pair of hexadecimal digits behind a backslash, the first not a capital letter, is the character of that number |
| NameRules.QuotedRead | src/anyldap/protocols/ldap/distinguishedname.py:38-53 | Any other character behind a backslash is itself, and a backslash at the end is refused |
| NameText.UnescapeEscape | src/anyldap/protocols/ldap/distinguishedname.py:15-53 | Unescaping undoes escaping for every string, whatever text follows |
| NameText.SplitLoop | src/anyldap/protocols/ldap/distinguishedname.py:56-78 | The loop computes `Split` |
| NameText.SplitsBack | src/anyldap/protocols/ldap/distinguishedname.py:56-78 | Parts joined with a separator are split apart again exactly when they are not a single empty part |
| NameRules.SplitSpaced | src/anyldap/protocols/ldap/distinguishedname.py:56-78 | Any number of spaces behind each separator makes no difference to the parts |
| NameRules.NameSpaced | src/anyldap/protocols/ldap/distinguishedname.py:244-279 | A name with any number of spaces behind its commas is read as the name |
| NameText.ParseAvaText | src/anyldap/protocols/ldap/distinguishedname.py:96-123 | A printed attribute and value always parses, and to itself exactly when the type has no '=' |
| NameText.ParseText | src/anyldap/protocols/ldap/distinguishedname.py:167-288 | A name is recovered from its text exactly when no type has an '=' and it is not the name of a single empty RDN, for values of any characters |
| NameText.TextInjective | src/anyldap/protocols/ldap/distinguishedname.py:274-303 | Two such names with the same text are the same |
| NameText.RdnTextInjective | src/anyldap/inmemory.py:77-93 | RDNs without an '=' in a type and with the same text are the same, so keeping children by the text of their RDN is keeping them by RDN |
| NameText.TextPrinted | src/anyldap/protocols/ldap/distinguishedname.py:15-35 | A name's text has no control character and does not start with a space, so it can stand on an LDIF line unencoded |
| PyDn.UnescapeOctetsLoop | src/anyldap/ldap/dn.py:34-64 | The index loop computes `UnescapeOctets` |
| NameRules.PyPairRead | src/anyldap/ldap/dn.py:34-64 | A pair of hexadecimal digits in either case is one octet |
| NameRules.TypeIs | src/anyldap/ldap/dn.py:25-26 | An attribute type is a letter with letters, digits and hyphens behind it, or at least two numbers with dots between them, and nothing else |
| NameRules.FlagIs | src/anyldap/ldap/dn.py:67-71 | The flag says string exactly for printable ASCII |
| PyDn.PartsBack | src/anyldap/ldap/dn.py:101-115 | The stricter split gives parts back unless there are none or one that is empty, and then it is an error |
| PyDn.Str2dnText | src/anyldap/ldap/dn.py:67-126 | str2dn undoes dn2str exactly on names whose RDNs all hold something, whose types match `_TYPE` and whose flags are those `_flag` computes |
| Base64.DecodeEncode | src/anyldap/protocols/ldap/ldif.py:25-30 | Decoding gives back every string of octets that was encoded |
| Base64.EncodeAlphabet | src/anyldap/protocols/ldap/ldif.py:25-30 | Encoded text holds base64 digits and padding only, no line break |
| LdifRules.QuadIs | src/anyldap/protocols/ldap/ldif.py:25-30 | Three octets and the four digits written for them stand for the same number, by the alphabet of RFC 4648 |
| LdifRules.EncodeIs | src/anyldap/protocols/ldap/ldif.py:25-30 | Octets are encoded by threes, with the padding of section 4 of RFC 4648 for one or two that are left over |
| Ldif.ContainsNonprintableLoop | src/anyldap/protocols/ldap/ldif.py:33-38 | The loop finds a character that needs base64 exactly when there is one |
| Ldif.ParseLineBack | src/anyldap/protocols/ldap/ldif.py:41-56 | A printed line parses to its attribute and value exactly when the attribute has no colon, whatever octets the value holds |
| LdifRules.WrittenRaw | src/anyldap/protocols/ldap/ldif.py:41-56 | A value is written as it is exactly when it is a safe string by RFC 2849 that does not end in a space, and else in base64 |
| LdifRules.ReadRaw | src/anyldap/protocols/ldap/ldifprotocol.py:99-115 | Behind a colon any number of spaces, or none, before the value |
| LdifRules.ReadEncodedValue | src/anyldap/protocols/ldap/ldifprotocol.py:99-115 | Behind two colons any number of spaces before the base64 |
| LdifRules.NotRead | src/anyldap/protocols/ldap/ldifprotocol.py:99-115 | A URL and a line without a colon are refused |
| Ldif.LineStands | src/anyldap/protocols/ldap/ldifprotocol.py:86-97 | A printed line is neither blank, nor broken, nor taken for the continuation of another |
| LdifDelta.Parser.DataReceived | src/anyldap/protocols/ldap/ldifprotocol.py:53-61 | The buffered line loop, state methods and all, takes the parser where `Feed` does and keeps the unfinished line, or raises the same error |
| LdifDelta.Parser.LineReceived | src/anyldap/protocols/ldap/ldifprotocol.py:86-97 | A line continues the pending one, is a comment, or hands the pending one to the state method |
| LdifDelta.Parser.LogicalLineReceived | src/anyldap/protocols/ldap/ldifprotocol.py:80-84 | The state method for the mode, of LDIF or LDIFDelta, does what the transition function says |
| LdifDelta.Parser.StateInModSpec | src/anyldap/protocols/ldap/ldifdelta.py:112-134 | Values are gathered until a dash, a line of another attribute is refused, and so is a missing dash |
| LdifRules.VersionRefused | src/anyldap/protocols/ldap/ldifprotocol.py:117-130 | The version must be a number, and not above 1 |
| LdifRules.StartRefused | src/anyldap/protocols/ldap/ldifdelta.py:54-81 | What is refused where a name or a changetype is due, and as what |
| LdifRules.InsideRefused | src/anyldap/protocols/ldap/ldifdelta.py:89-170 | What is refused inside a record, and as what |
| LdifRules.EndRefused | src/anyldap/protocols/ldap/ldifdelta.py:59-156 | Where a record must not end |
| LdifRoundTrip.ChunksDoNotMatter | src/anyldap/protocols/ldap/ldifprotocol.py:53-61 | The parser ends in the same state or error however its input is cut up |
| LdifRoundTrip.Unfolding | src/anyldap/protocols/ldap/ldifprotocol.py:86-97 | A record's lines reach the states one by one in order, and the blank line leaves none pending |
| LdifRoundTrip.FirstRecordFed | src/anyldap/protocols/ldap/ldifdelta.py:54-170 | A printed record at the front of any data is collected as its operation, and the rest is read as if it came first |
| LdifRoundTrip.GoodNameReads | src/anyldap/delta.py:169-314 | Every name of octets but that of a single empty RDN, no '=' in a type, can stand in these records and reads back |
| LdifRoundTrip.RoundTrip | src/anyldap/protocols/ldap/ldifdelta.py:48-170 | Header and records for any operations, in chunks of any size, are read as those operations and the parser ends in WAIT_FOR_DN; or the entry without any value is refused |
| LdifFolding.FoldedRecord | src/anyldap/protocols/ldap/ldifprotocol.py:80-97 | A record whose lines are cut into pieces at any places, and with comments between them that may be cut as well, takes the parser where the lines alone do |
| LdifFolding.FoldedFile | src/anyldap/protocols/ldap/ldifprotocol.py:53-97 | The same for the text of any number of records |
| LdifFolding.FoldedRoundTrip | src/anyldap/protocols/ldap/ldifdelta.py:48-170 | Printed operations, folded and commented on in any way and in chunks of any size, are read as those operations |
| LdifPrint.PrintMod | src/anyldap/delta.py:87-139 | What Add, Delete and Replace print lists their values in some order, each once |
| LdifPrint.ToWire | src/anyldap/entry.py:147-162 | An entry is printed as its name and its attributes' values, objectClass first, none left out |
| LdifPrint.PrintOp | src/anyldap/delta.py:169-314 | What an operation prints is the record of a listing that means that operation |
| LdifPrint.PrintAll | src/anyldap/_scripts/ldifdiff.py:11-14 | The header, then every operation's record in order |
| LdifPrint.PrintedParses | src/anyldap/delta.py:169-314 | What was printed parses back to the operations, less the attributes without values of added entries; refused exactly when some added entry holds no value |
| LdifDiffPatch.WireApplies | src/anyldap/protocols/ldap/ldifdelta.py:136-156 | An operation that went through text does the same to the directory, but for attributes without values |
| LdifDiffPatch.WiresReplay | src/anyldap/protocols/ldap/ldifdelta.py:184-196 | So do all the operations of a difference, and none of them comes to fail |
| LdifDiffPatch.DiffToPatch | src/anyldap/_scripts/ldifpatch.py:21-29 | ldifdiff then ldifpatch: the first tree gets the second's names and values, unless some entry to be added holds no value at all: exactly then the text is refused and the tree is untouched |
| PureBer.Int2BerLoop | src/anyldap/protocols/pureber.py:89-95 | The loop computes `Int2Ber` |
| PureBer.Ber2IntLoop | src/anyldap/protocols/pureber.py:98-105 | The loop computes `Ber2Int` |
| PureBer.IntegerBack | src/anyldap/protocols/pureber.py:89-105 | Every integer comes back from its octets |
| PureBer.IntegerShortest | src/anyldap/protocols/pureber.py:89-105 | No shorter octets decode to the same integer, and no others of that length |
| PureBer.OctetsRead | src/anyldap/protocols/pureber.py:98-105 | Any octets, shortest or not, read as the big-endian number they stand for, less their whole range from its half on where they are signed |
| PureBer.UnsignedIs | src/anyldap/protocols/pureber.py:89-95 | What is written unsigned is the big-endian form of the number |
| PureBer.FitsMeans | src/anyldap/protocols/pureber.py:77-86 | A length can be written exactly when it is below 256^127 |
| PureBer.LengthBack | src/anyldap/protocols/pureber.py:63-86 | A length reads back with exactly the octets it took, whatever follows |
| PureBer.LengthReads | src/anyldap/protocols/pureber.py:63-74 | A length reads in every form that BER has for it: one octet, or k octets behind 128 + k for any k up to 127 that is enough |
| PureBer.LengthCut | src/anyldap/protocols/pureber.py:63-74 | Every non-empty strict prefix of a length is short of octets, by as many as are reported |
| PureBer.FrameBack | src/anyldap/protocols/pureber.py:444-465 | A frame is read whole, whatever follows it, its tag without the constructed bit |
| PureBer.FrameReads | src/anyldap/protocols/pureber.py:444-465 | A frame is read whole whatever form its length has |
| PureBer.FrameCutAnywhere | src/anyldap/protocols/pureber.py:444-465 | And none of its strict prefixes is read |
| PureBer.MaskedIs | src/anyldap/protocols/pureber.py:444-465 | Tags are looked up without the bit of value 32 and with all others |
| PureBer.FrameCut | src/anyldap/protocols/pureber.py:444-465 | Every non-empty strict prefix of a frame raises insufficient data, for no more octets than it lacks |
| PureBer.FrameMore | src/anyldap/protocols/pureber.py:444-465 | Later data makes no difference to a frame that is there |
| PureBer.FrameEnough | src/anyldap/protocols/pureber.py:444-465 | A frame is read as soon as its last octet is there |
| PureLdap.DecodeMultipleLoop | src/anyldap/protocols/pureber.py:468-484 | The loop decodes the content of a constructed object as `DecodeMultiple` says |
| PureLdap.ObjectBack | src/anyldap/protocols/pureber.py:396-465 | An object reads back in a context whose fallback chain gives its masked tag its class |
| PureLdap.SpelledBack | src/anyldap/protocols/pureber.py:396-465 | The same with the length in any of its forms |
| PureLdap.PlainReads | src/anyldap/protocols/pureber.py:180-393 | Every universal object, nested to any depth, is read back |
| PureLdap.FilterBack | src/anyldap/protocols/pureldap.py:622-1051 | The content of any filter makes that filter again, in any context that ends in the base one |
| PureLdap.FilterReads | src/anyldap/protocols/pureldap.py:622-1051 | Every filter of any depth is read back where filters are looked for |
| PureLdap.SubstringsBack | src/anyldap/protocols/pureldap.py:752-798 | A substrings filter's pieces come back in order with their kinds, their tags meaning those kinds only inside it |
| PureLdap.ExtensibleBack | src/anyldap/protocols/pureldap.py:928-1011 | An extensible match comes back with each optional part present or absent as it was |
| PureLdap.RequestBack | src/anyldap/protocols/pureldap.py:1066-1163 | A search request comes back field by field with its filter, typesOnly as a flag |
| PureLdap.ControlBack | src/anyldap/protocols/pureldap.py:1294-1347 | A control comes back with criticality and value present or absent as they were |
| PureLdap.MessageReads | src/anyldap/protocols/pureldap.py:110-173 | Every search request message, any filter, with or without controls, is recovered from its octets, whatever follows, by the server's context |
| PureLdap.MessageSpelled | src/anyldap/protocols/pureldap.py:110-173 | The same with the message's length in any of its forms |
| LdapWire.FilterTags | src/anyldap/protocols/pureldap.py:622-715 | And, or, not and presence have the tags of section 4.5.1 of RFC 4511 |
| LdapWire.AssertionTags | src/anyldap/protocols/pureldap.py:568-619 | So have the four comparisons, with the attribute before the value |
| LdapWire.SubstringsOnWire | src/anyldap/protocols/pureldap.py:731-798 | So have the pieces of a substrings filter, behind the attribute |
| LdapWire.ExtensibleOnWire | src/anyldap/protocols/pureldap.py:903-1011 | So have the parts of an extensible match, in their order |
| LdapWire.RequestOnWire | src/anyldap/protocols/pureldap.py:1150-1163 | The eight fields of a search request in their order, with their types |
| LdapWire.MessageOnWire | src/anyldap/protocols/pureldap.py:166-173 | A message is its id, its operation and its controls |
| LdapWire.ControlOnWire | src/anyldap/protocols/pureldap.py:1341-1347 | A control is its type, then criticality and value if it has them |
| PureLdap.CanonicalIs | src/anyldap/protocols/pureber.py:286-315 | What is recovered is the message itself exactly when its truth values are 0 or 255 |
| Framing.Receiver.DataReceived | src/anyldap/protocols/ldap/ldapserver.py:178-189 | The loop handles the messages and keeps the octets that `Receive` says of buffer and chunk together, or raises with it |
| Framing.ChunkIndependence | src/anyldap/protocols/ldap/ldapserver.py:178-189 | For any stream: the messages handled and the octets left are the same for every split exactly when no frame with an unknown tag has a complete frame behind it |
| Framing.MessagesReceived | src/anyldap/protocols/ldap/ldapserver.py:178-189 | After any chunks of a stream of messages exactly those complete were handled, in order, and the buffer is the start of the next |
| Framing.SpelledReceived | src/anyldap/protocols/ldap/ldapserver.py:178-189 | The same for any objects whose lengths are in any of their forms |
| Framing.SearchMessagesReceived | src/anyldap/protocols/ldap/ldapserver.py:178-189 | Encoded search request messages, however cut up, are each handled once in order with nothing left |
| Framing.SearchMessagesSpelled | src/anyldap/protocols/ldap/ldapserver.py:178-189 | The same for messages whose lengths are in any of their forms |
| Framing.NoiseMakesADifference | src/anyldap/protocols/ldap/ldapserver.py:178-189 | A frame with an unknown tag in one chunk with a message leaves the message waiting; in two chunks it does not |
| Syncrepl.SyncreplConsumer.SyncreplPoll | src/anyldap/ldap/syncrepl.py:262-323 | One call reads one message, or all up to the search's end, and does with each what `OnMessage` says |
| Syncrepl.SyncreplConsumer.SyncreplInfo | src/anyldap/ldap/syncrepl.py:325-349 | Each kind of info message and its effect on copy, record, cookie and phase |
| Syncrepl.CookieIsLast | src/anyldap/ldap/syncrepl.py:262-349 | After any messages the cookie stored is the last that any of them carried, and the old one if none did |
| Syncrepl.FirstSyncIs | src/anyldap/ldap/syncrepl.py:295-310 | Of an entry's controls the first Sync State control is the one that is looked at |
| Syncrepl.SyncreplConsumer.Search | src/anyldap/ldap/syncrepl.py:238-260 | A search sends the cookie that is stored, and starts the refresh anew |
| SyncreplProvider.PresentPhase | src/anyldap/ldap/syncrepl.py:360-380 | A present phase ends with the provider's content exactly when the record it began with names nothing that is in the copy and gone from the content |
| SyncreplProvider.DeletePhase | src/anyldap/ldap/syncrepl.py:325-372 | A delete phase ends with the provider's content whatever was recorded before |
| SyncreplProvider.RefreshConverges | src/anyldap/ldap/syncrepl.py:262-349 | Every refresh of sections 3.3 and 3.4 of RFC 4533 (present, delete, present then delete, ended by a result or by an info message) ends with the provider's content and an empty record |
| SyncreplProvider.PersistFollows | src/anyldap/ldap/syncrepl.py:262-349 | After the refresh the copy is the content after every single message |
| SyncreplProvider.SessionsConverge | src/anyldap/ldap/syncrepl.py:238-349 | Over any number of searches, each answered from the content at the cookie that was stored and sent, the copy is the content whenever one ends, and the content at the cookie then stored |
| SyncreplProvider.LeftoverRecord | src/anyldap/ldap/syncrepl.py:360-369 | A record left by a refresh that was cut short keeps an entry that is gone |
| AppServer.ApplicationServer.Abandon | src/anyldap/app.py:414-431 | The operation leaves the table and is marked, and no other |
| AppServer.ApplicationServer.HandleCancel | src/anyldap/app.py:433-507 | A Cancel with an id: abandons it and queues the answer to the target, or 119 if there is no such operation; without one, a protocol error |
| AppServer.ApplicationServer.ReaderGoesOn | src/anyldap/app.py:433-507 | Once the answer that the reader waits for is out, the 118 is queued behind whatever waits by then, or the next request is read |
| AppServer.ApplicationServer.SendEvent | src/anyldap/app.py:575-589 | A send is refused exactly when the operation is given up or the connection closed |
| AppServerRuns.InvKept | src/anyldap/app.py:396-589 | Every step of any interleaving keeps the invariant behind the statements below |
| AppServerRuns.NothingSentAfterwards | src/anyldap/app.py:414-431 | In every run a response that is written, an application's or one that reports its failure, was begun when nothing had named its operation between its request and its end |
| AppServerRuns.RefusedExactly | src/anyldap/app.py:575-589 | A send is refused exactly when the connection is closed or its operation was named between its request and its end, so a send that an application makes after it returned is not refused for a later abandon |
| AppServerRuns.EveryCancelAnsweredOnce | src/anyldap/app.py:492-507 | In every run each Cancel has one answer, written, or dropped because the connection was closed when its turn came, or still owed, and nothing else has one |
| AppServerRuns.CanceledIsTrue | src/anyldap/app.py:433-445 | Code 118 is written only after the target was told `canceled` because of that Cancel |
| AppServerRuns.CodesAre | src/anyldap/app.py:433-507 | In every run the code that answers a Cancel is 118 exactly if the operation it named had been requested and neither ended nor been given up, 119 if it named another, and 2 if it named none |
| AppServerRuns.UnbindAndStartTls | src/anyldap/app.py:509-563 | In every run no failure of an Unbind is reported, and no request is taken up between a StartTLS and its end |
| AppServerRuns.NobodyCanceledTwice | src/anyldap/app.py:433-445 | No operation is told `canceled` twice |
| AppServerRuns.NothingBehindCanceled | src/anyldap/app.py:433-445 | In every run no response of an operation is written behind the answer that it was canceled |
| AppServerRuns.NothingBehindCancel | src/anyldap/app.py:492-507 | Nor behind the 118 that answers the Cancel which named it |
| AppServerRuns.AllInTurn | src/anyldap/protocols/ldap/ldapserver.py:115-126 | In every run the responses begun are those whose turn to be written came and those that still wait, each once, in the order they were begun |
| AppServerRuns.WrittenInTurn | src/anyldap/protocols/ldap/ldapserver.py:115-126 | Of two responses written the first was begun first |
| AppServerRuns.OnlyTheWaiting | src/anyldap/app.py:414-431 | In every run nothing is written for an operation once it was given up but what was waiting then |
| LdapObject.Connection.DispatchMessage | src/anyldap/ldap/ldapobject.py:706-792 | A message reaches the operation of its id and no other; one for nobody changes nothing |
| LdapObject.Connection.NextQueued | src/anyldap/ldap/ldapobject.py:1030-1053 | The first item that is asked for is handed out, those before it are passed over, the rest stays |
| LdapRouting.AskingForOne | src/anyldap/ldap/ldapobject.py:1030-1053 | Asking for one item passes over exactly the intermediate responses at the front that are not wanted, hands out the next and leaves the rest |
| LdapObject.Connection.ResultOne | src/anyldap/ldap/ldapobject.py:998-1028 | result4 with all=0: the next item, or when the queue is empty and the operation done, its end |
| LdapObject.Connection.ResultAll | src/anyldap/ldap/ldapobject.py:963-1028 | result4 with all=1: everything queued but intermediates, and the end; nothing but the error where it raises one |
| LdapRouting.InvKept | src/anyldap/ldap/ldapobject.py:666-1053 | Every step of any interleaving keeps what is tracked of each operation |
| LdapRouting.NothingLostOrDoubled | src/anyldap/ldap/ldapobject.py:706-1053 | In every run what was taken from an operation's queue followed by what is in it is what the server sent for it, in arrival order |
| LdapRouting.AllHandedOut | src/anyldap/ldap/ldapobject.py:963-1053 | All that left an operation's queue was handed out, in that order, exactly when no item was passed over, no intermediate response was collected, and no collecting raised the operation's error with items queued |
| LdapRouting.EndComesLast | src/anyldap/ldap/ldapobject.py:998-1053 | An end is reported only when the server has sent it and everything before it has left the queue, and as the server sent it |
| LdapRouting.OutcomeExactly | src/anyldap/ldap/ldapobject.py:706-792 | In every run an outcome is Success exactly if no message received for the operation until then carried a non-zero code, another class of result or an item not meant for it; otherwise it is the code of the last such message, or a protocol error where that was of the wrong kind |
| LdapRouting.VerdictOfOne | src/anyldap/ldap/ldapobject.py:746-792 | The one final response, of whatever result code or class, decides what is reported |
| Journal.JournaledEntry.SetItem | src/anyldap/protocols/ldap/ldapsyntax.py:346-354 | When assigning an attribute is refused, and what it does to attributes and journal otherwise |
| Journal.JournaledEntry.DelItem | src/anyldap/protocols/ldap/ldapsyntax.py:356-361 | The same for deleting one |
| Journal.RefusedExactly | src/anyldap/protocols/ldap/ldapsyntax.py:119-361 | A change is refused exactly when it would take something from the RDN, when what it needs is not there, or when the entry is not ready, but for adding to a set |
| Journal.LocalEffect | src/anyldap/protocols/ldap/ldapsyntax.py:119-393 | Value by value, what each change leaves of the entry and of the remote data |
| Journal.JournaledEntry.Commit | src/anyldap/protocols/ldap/ldapsyntax.py:373-393 | commit sends the journal if there is one; accepted, the local attributes become the remote ones and the journal is empty; refused, nothing changes |
| Journal.AttributeSet.Remove | src/anyldap/protocols/ldap/ldapsyntax.py:138-143 | Removing a value: refused for an RDN value or one that is not in this set, else noted, and done to the entry if it still holds the set |
| Journal.AttributeSet.Clear | src/anyldap/protocols/ldap/ldapsyntax.py:145-148 | Clearing, likewise |
| Journal.ChangeKeepsFaith | src/anyldap/protocols/ldap/ldapsyntax.py:119-361 | If replaying the journal on the remote data gave the local attributes, it still does after a change exactly when the change did not delete an attribute without values and, on a set that the entry holds no more, did nothing but add values that the entry holds |
| Journal.NotedAlone | src/anyldap/protocols/ldap/ldapsyntax.py:129-148 | A modification noted with nothing done to the entry leaves the journal true exactly when it adds values that are there |
| Journal.JournalTellsAll | src/anyldap/protocols/ldap/ldapsyntax.py:119-393 | At every point of every run, old sets included: the journal has given the local attributes all the time since the last undo or commit exactly when every change since was careful in that sense; without old sets one careless change makes it refused from then on |
| Journal.RdnHeldAlways | src/anyldap/protocols/ldap/ldapsyntax.py:205-228 | At every point of every run the entry holds the values of its RDN, if it did when it was fetched |
| Journal.RefusedStaysRefused | src/anyldap/protocols/ldap/ldapsyntax.py:241-252 | A journal that would be refused stays so until it is undone |
| Journal.UndoAndCommit | src/anyldap/protocols/ldap/ldapsyntax.py:363-383 | undo goes back to what was last committed, commit makes the local attributes the remote ones, both empty the journal |
| Journal.CommitReachesServer | src/anyldap/protocols/ldap/ldapsyntax.py:385-393 | A server that held the remote data holds the local attributes once it applied the journal |
| Journal.JournalIsPatch | src/anyldap/delta.py:81-129 | What a directory accepts as modifications, patching in delta.py accepts too and with the same values |
| Journal.ClearedTwice | src/anyldap/protocols/ldap/ldapsyntax.py:145-148 | An attribute cleared twice makes a journal that is refused |
| Journal.OldSetAddsMore | src/anyldap/protocols/ldap/ldapsyntax.py:129-131 | A set is looked up, its attribute assigned anew and a value added to the old set: the journal is accepted and adds a value that the entry does not hold |
| PyLdif.LDIFWriter.FoldLine | src/anyldap/ldap/ldif.py:150-166 | The fold loop ends and writes the line in pieces: cols characters, then a space and cols - 1 at a time |
| PyLdifRules.FoldWidth | src/anyldap/ldap/ldif.py:150-166 | No line is wider than cols, each but the last is just as wide, and a line that fits is not folded |
| PyLdifRules.WrittenRaw | src/anyldap/ldap/ldif.py:168-193 | Base64 is written for the attributes that ask for it and for unsafe values, and for nothing else |
| PyLdif.LDIFWriter.UnparseEntry | src/anyldap/ldap/ldif.py:195-259 | An entry is written as its dn and every value, in some order of its attributes, and a blank line |
| PyLdif.LDIFWriter.UnparseModify | src/anyldap/ldap/ldif.py:204-259 | A modlist is written modification by modification; refused exactly when empty or with an unknown kind |
| PyLdif.LDIFParser.NextKeyAndValue | src/anyldap/ldap/ldif.py:361-407 | One attribute line unfolded, comments passed over, base64 decoded; or the same error as `Next` |
| PyLdifRules.AnyCutRead | src/anyldap/ldap/ldif.py:346-407 | A line that was cut at any places is read as the line |
| PyLdifRules.CommentPassed | src/anyldap/ldap/ldif.py:372-375 | A comment, folded or not, makes no difference |
| PyLdifRules.ValueRead | src/anyldap/ldap/ldif.py:382-407 | How a value is told from what stands behind the colon |
| PyLdifRules.EncodedRead | src/anyldap/ldap/ldif.py:389-394 | Base64 behind two colons is decoded |
| PyLdif.LDIFParser.ParseEntryRecords | src/anyldap/ldap/ldif.py:427-478 | The record loop collects what `ParseEntries` makes of the lines, or raises with it |
| PyLdif.LDIFParser.ParseChangeRecords | src/anyldap/ldap/ldif.py:495-608 | The same for change records |
| PyLdifRules.VersionPassed | src/anyldap/ldap/ldif.py:427-437 | A line with a version number in front makes no difference to the records |
| PyLdifRules.BlankPassed | src/anyldap/ldap/ldif.py:409-425 | Nor do blank lines between records |
| PyLdifRules.OthersPassed | src/anyldap/ldap/ldif.py:527-598 | Change records that add, delete or rename are read and passed over |
| PyLdifRules.ChangeTypeRefused | src/anyldap/ldap/ldif.py:543-552 | An unknown changetype is refused |
| PyLdifRoundTrip.FoldUnfold | src/anyldap/ldap/ldif.py:150-359 | Unfolding undoes folding for every line and every cols >= 2 |
| PyLdifRoundTrip.ValueReadsBack | src/anyldap/ldap/ldif.py:168-407 | A value reads back, folded anywhere, exactly when it is written as base64 or does not start with white space |
| PyLdifRoundTrip.EntriesReadBack | src/anyldap/ldap/ldif.py:195-478 | A file of any entries, folded at any cols >= 2, is read back record by record |
| PyLdifRoundTrip.WriteThenRead | src/anyldap/ldap/ldif.py:119-482 | Writer, then parser, on any list of entries: no error and the same records |
| PyLdifRoundTrip.ChangesReadBack | src/anyldap/ldap/ldif.py:204-608 | A file of any modlists is read back, a modification without values as one with none given |
| Merger.ChosenIsSuccess | src/anyldap/protocols/ldap/merger.py:106-122 | The reply that is chosen is one of the final responses, and a success if and only if one of them is |
| Merger.ChosenIs | src/anyldap/protocols/ldap/merger.py:106-122 | Of several successes the one that came last is chosen, and where there is none the response that came last |
| Merger.Collector.GotResponse | src/anyldap/protocols/ldap/merger.py:100-129 | A partial response is replied as it is, a final one kept, and the last of them answered |
| Merger.FinalComesLast | src/anyldap/protocols/ldap/merger.py:94-129 | In every interleaving a final reply is made only after every server's responses were, and nothing after it |
| Merger.AnsweredAsOne | src/anyldap/protocols/ldap/merger.py:94-129 | When nothing is left to do: each server's partial responses each once and in order, then one final reply, a success if and only if some server said so |
| Schema.GetOidIs | src/anyldap/ldap/schema/subentry.py:158-183 | getoid gives exactly what a name stands for, with white space around it and sub-types behind it or without: a described OID itself, any other published name the OID it points at, and anything else itself |
| Schema.OidIsFixed | src/anyldap/ldap/schema/subentry.py:158-183 | The OID that a name was resolved to resolves to itself |
| Schema.WithSuperiors | src/anyldap/ldap/schema/subentry.py:223-239 | It ends for any superior graph, cycles included, with exactly the object classes reachable, each once |
| Schema.AttributeTypes | src/anyldap/ldap/schema/subentry.py:185-221 | KeyError exactly when asked for and something reachable is unknown; else must is all that reachable classes require, may all they allow less must |
| Md4Block.RowsAre | src/anyldap/samba/_passlib/_md4.py:92-159 | Every row of the three tables is the step that section 3.4 of RFC 1320 prescribes |
| Md4Block.RotationIsSum | src/anyldap/samba/_passlib/_md4.py:170-183 | The two shifts added up are a rotation, for every shift in the tables |
| Md4Block.ProcessArray | src/anyldap/samba/_passlib/_md4.py:161-187 | One block, processed in place, compresses the registers as section 3.4 of RFC 1320 says |
| Md4Block.Selects | src/anyldap/samba/_passlib/_md4.py:35-36 | F takes the bits of one word where those of another are set, and of the third elsewhere |
| Md4Block.Majority | src/anyldap/samba/_passlib/_md4.py:38-39 | G takes, bit by bit, what two of the words agree on |
| Md4Padding.TailIs | src/anyldap/samba/_passlib/_md4.py:224-227 | The tail built from the count and the buffer is the buffer padded as sections 3.1 and 3.2 of RFC 1320 pad the whole message |
| Md4Padding.PaddingLength | src/anyldap/samba/_passlib/_md4.py:226-233 | The padded tail is 64 or 128 octets long |
| Md4.LastBlocks | src/anyldap/samba/_passlib/_md4.py:226-236 | Processing the one or two last blocks gives the digest of the whole message |
| Md4.Hash.Update | src/anyldap/samba/_passlib/_md4.py:189-205 | After an update the object stands for the message so far with the new content behind it |
| Md4.Hash.DigestSoFar | src/anyldap/samba/_passlib/_md4.py:216-238 | digest is the one-shot digest of the message so far, and the object still stands for that message |
| Md4.Hash.Copy | src/anyldap/samba/_passlib/_md4.py:207-214 | A copy stands for the same message and shares no state |
| Md4.HashPieces | src/anyldap/samba/_passlib/_md4.py:189-238 | Any sequence of updates with a digest after each: every digest is that of the concatenation so far |
| Md4.CopyDiverges | src/anyldap/samba/_passlib/_md4.py:207-238 | A copy and its original hash what each is given, whatever the other is given |
| Md4Vector.DigestOfAbc | src/anyldap/samba/_passlib/_md4.py:161-238 | The digest of "abc" is the one in section A.5 of RFC 1320 |
| NumberAlloc.EndsExactly | src/anyldap/numberalloc.py:20-38 | The search ends exactly when, with no maximum, one of the numbers it gallops over is free, or, with one below the minimum, the minimum is free or all that is asked about down to the maximum is taken; with any other maximum always |
| NumberAlloc.FreeNumberGuesser.StartGuessing | src/anyldap/numberalloc.py:20-38 | Where it ends: without a maximum a free number that is the first or follows a taken one; with one a number that is free exactly when the maximum or a probe on the way is; with one below the minimum the minimum if free, else the maximum, which is taken; and the bounds it leaves |
| NumberAlloc.WhatIsFound | src/anyldap/numberalloc.py:20-38 | The same of the turns of the loop, however many it takes |
| NumberAlloc.FreeProbeIs | src/anyldap/numberalloc.py:20-38 | The probes on the way are the bisection points from the minimum towards the maximum, known before the search |
| NumberAlloc.TakenIsFound | src/anyldap/numberalloc.py:20-38 | With a maximum given that is taken, the search can end with a taken number though one between is free |
| NumberAlloc.NeverEnds | src/anyldap/numberalloc.py:20-38 | From 0 with a maximum of -1, 0 taken and -1 free, it goes on for ever |

## Left out

- Directory.Entry.Move: only of an entry without children and not to a place under itself, because the source does not rename what is below an entry that moves.
- TreeRuns.Make: moves only leaves, as `Directory.Entry.Move` does.
- TreeRuns.RunAll: moves only leaves; calls go through entries that the tree holds, fetched by name; a handle to an entry that was deleted or displaced is not followed.
- Patching.DiffThenPatch: AddOp is taken with the attributes the entry has when the difference is made; the source keeps a reference to the entry.
- Attributes.Diff: one spelling per attribute name; attribute sets are values here, so the sharing of one set between two entries is not seen (`Journal` models sets as objects).
- NameText.UnescapeLoop: text is a string of characters whose escapes stand for characters below 256; what `int(_, 16)` takes besides two hex digits is not modelled.
- PyDn.UnescapeOctetsLoop: gives the octets; decoding them as UTF-8, and the error where they are not, is left out.
- PyDn.Str2dnText: names are read as their UTF-8 octets; the check that a value's octets are UTF-8 is left out.
- Base64.DecodeEncode: decoding is strict; the library's lenient treatment of characters outside the alphabet is modelled in `PyLdif` only, by dropping them first.
- LdifDelta.Parser.StateInModSpec: an error leaves the parser as it is at that point, about which nothing is said, since the source gives up on the input.
- LdifDelta.Parser.LogicalLineReceived: a version number is a string of ASCII digits; `int()` takes more. LDIF `:<` URL values are refused as in the source.
- LdifPrint.PrintOp: of operations whose attribute names have no colon or line break and whose names read back, as LDIF needs; what is printed of others is not LDIF for them.
- LdifPrint.PrintAll: of the same operations.
- LdifDiffPatch.DiffToPatch: reading and writing data files as plain LDIF entries (fromLDIFFile, the final output) is left out: trees come in and go out as trees.
- PureLdap.MessageReads: of the protocol operations only the search request; the other operations, `tag=` overrides and controls with decoded values are not modelled, and a tag that leads to one of them decodes to nothing said.
- PureLdap.FilterReads: the text grammar of filters (`ldapfilter.py`) and matching entries against filters are left out; so is the scope walk of searches.
- Framing.Receiver.DataReceived: handling a message is appending it to a list; an exception from a handler is not modelled.
- Syncrepl.SyncreplConsumer.SyncreplPoll: result4 hands over one message at a time, as it does here; decoding the controls' BER and the timeout are left out.
- SyncreplProvider.SessionsConverge: for providers whose last cookie in a session, if they send one, stands for the content when it ends; with an older one the next search would start from older content than the copy has.
- Framing.SearchMessagesSpelled: the message's own length is in any form; the lengths inside it are as pureldap.py writes them.
- SyncreplProvider.RefreshConverges: content is what the provider says; filters, access and the choice of cookie are the provider's. The e-syncRefreshRequired result is left out.
- AppServer.ApplicationServer.SendEvent: the TLS upgrade, message id 0, tasks are steps that interleave, and a write is one step.
- AppServerRuns.WrittenInTurn: the write lock is taken to be handed to whoever asked for it first, as anyio's is.
- AppServerRuns.NothingSentAfterwards: for clients that use no message id twice.
- LdapObject.Connection.ResultOne: referrals off, the connection not lost, one result4 at a time for an id, no RES_ANY and no timeout; waiting for the server is other steps happening first.
- LdapRouting.NothingLostOrDoubled: responses that arrive before their operation was registered are messages for nobody, as in the source; the client's own receive loop and its buffer are left out.
- Journal.JournaledEntry.Commit: the server's answer is a parameter; move, delete and password changes of a remote entry are left out, so an entry's status does not change in a run.
- PyLdif.LDIFWriter.UnparseModify: of modlists of three-part modifications; those of pairs, which describe an entry to be added, are left out.
- PyLdif.LDIFParser.NextKeyAndValue: a URL value is read as None, as with no URL scheme processed; fetching one is left out.
- PyLdif.LDIFParser.ParseChangeRecords: controls are read but not kept, and the record counters are left out.
- PyLdif.LDIFParser.ParseEntryRecords: whether a name is accepted is a parameter; max_entries, ignored attributes, URL values and the record count limits are left out.
- PyLdifRoundTrip.ChangesReadBack: modify records only, the only ones the parser hands on; attributes named "-" are excluded, lines end in \n or \r\n.
- Merger.AnsweredAsOne: a fixed list of servers, each of which sends one final response; lost connections and unbind are left out.
- Schema.AttributeTypes: definitions come parsed and with unique OIDs; attr_type_filter and ignore_dit_content_rule are not used by the source either. Names are compared in one spelling, where the source folds case.
- Md4.Hash.Update: the check for bytes and hexdigest are left out.
- NumberAlloc.FreeNumberGuesser.StartGuessing: the oracle is a fixed predicate, and the call is one that ends, which `NumberAlloc.EndsExactly` says no more than.
- Sockets, TLS, task groups, timeouts, DNS, SASL, option tables, LDAP URLs, the file-system tree (`ldiftree.py`) and the command line.
