# CubeFS key/value store and extended attributes in Dafny

This project models three pieces of CubeFS state handling and proves
properties of them.

- **The master's flat key/value store** (`master/kv.go`). `addKey`, `delKey`,
  `updateKey` and `getKey` work on an in-memory map. A mutation first passes
  its parameter checks, then goes to the replicated partition as a command,
  and changes the map only once that command is committed. `updateKey`
  reads the request through a small grammar:
  - `%+N` / `%-N` add a signed decimal delta;
  - `%1…` / `%2…` replace one half of a `field1#field2` value;
  - anything else overwrites.
- **The command encoding and snapshot reload** (`master/kv_fsm_op.go`). Every
  mutation travels as (opcode, kvPrefix + key, value bytes). On restart,
  every snapshot entry under kvPrefix is stored back under its key with the
  prefix cut off.
- **A meta partition's extended-attribute operations**
  (`metanode/partition_op_extend.go`). The index maps an inode to its
  attribute record. `UpdateXAttr` adds `files,dirs,bytes` triples field by
  field. `AppendXAttr` appends byte strings key by key and proposes after each
  key. `SetXAttr`, `BatchSetXAttr` and `RemoveXAttr` propose record images.
  There are four reads. `addExtendParentIno` and `delExtendParentIno` keep a
  parent-to-link-count map, in JSON, under the parent attribute.

How the model is laid out:

- **Classes for the stateful parts.** `MasterKv.Kv` and
  `MetaPartitionExtend.MetaPartition` hold the maps the source mutates, as
  fields that methods with `modifies` clauses reassign.
- **Pure modules for the computations.** `KvMerge` holds the merge grammar,
  `KvFsm` the command layout, `ExtendTriple` the triple sum and
  `ExtendValues` the append folds, read projections and parent-link counts.
  The methods are proved against these functions.
- **Library helpers.** `Strconv` models `ParseInt(s, 10, 64)` with the error
  ignored, and `FormatInt`. `GoStrings` models `HasPrefix`, `SplitN(s, sep, 2)`,
  `Split` and `Join`.

Consensus is not modelled. Each mutating method takes an `Outcome` that
says what became of its proposal:

- `Committed`;
- `EncodeFailed`: marshalling failed, so the partition was never called;
- `SubmitFailed`: the partition refused the proposal.

Each class keeps a `log` of the commands or record images that were
committed. Go strings and byte slices are both `string`; one character
stands for one byte.

The model follows the code as written, including these behaviours:

- **The two-field updates.** `%1` / `%2` put the whole request, marker
  included, into the new value. They also store a `*string` (see Findings).
- **The tree changes before the proposal.** `UpdateXAttr` on a record
  lacking the key, and `AppendXAttr` on an existing record, change the record
  in the tree before they propose it. So the tree keeps the change even when
  the proposal fails, and `AppendXAttr` does not roll back earlier keys.
- **`AppendXAttr` without a record.** On an inode without a record it builds a
  fresh record and never puts it into the tree.
- **`addExtendParentIno` without a record.** It inserts an empty record and
  records no link. A second call for the same inode then panics: the empty
  record has no parent attribute, `json.Unmarshal` of nil bytes fails, and
  `data[parentIno] += 1` writes to a nil map (`SecondParentAddPanics`).
- **`delExtendParentIno` reads and writes different keys.** It reads the map
  under `proto.ParentKey` but writes it back under the literal `"parent"`.
  The value of `proto.ParentKey` is not part of this model, so the two keys
  are kept apart (`DelParentWritesLiteral`, `AddThenDelParent`).

## Model

| member | source | states |
|---|---|---|
| Strconv.ParseInt | master/kv.go:85-86 | ParseInt(s, 10, 64) with its error dropped: a text that is not an optionally signed run of digits reads as 0, and one without '-' reads as a non-negative number (FormatParse gives the round trip) |
| Strconv.FormatInt | master/kv.go:87 | the decimal text is canonical (no leading zero, no "+", no "-0") and ParseInt reads it back as the number |
| Strconv.FormatParse | master/kv.go:85-87 | FormatInt(ParseInt(s)) == s for every canonical decimal text: the two are inverse on what FormatInt writes |
| GoStrings.Split | metanode/partition_op_extend.go:28 | strings.Split gives at least one part, no part holds the separator, and joining the parts with the separator gives the input back |
| GoStrings.SplitJoin | metanode/partition_op_extend.go:46-48 | Split inverts Join when no part holds the separator |
| GoStrings.SplitN2 | master/kv.go:96 | SplitN(s, sep, 2) gives two parts exactly when s holds sep, the first holds no sep, and joining them gives s back |
| GoStrings.SplitN2Join | master/kv.go:108 | SplitN(a + "#" + b, "#", 2) == [a, b] whenever a holds no "#" |
| GoStrings.HasPrefixConcat | master/kv.go:81-106 | strings.HasPrefix(s, p) holds exactly when s is p followed by the rest of s |
| KvMerge.DeltaText | master/kv.go:81-87 | the `%+N`/`%-N` result is canonical decimal text that reads back as old (absent reads "0", malformed reads 0) plus the signed delta after '%' |
| KvMerge.MergeDefined | master/kv.go:85-108 | updateKey runs without a panic exactly when: the key is absent or the request is an overwrite; or the stored value is a string and, for `%1`, it holds a '#'; a *string under the key panics on every delta or field request |
| KvMerge.Field1Text | master/kv.go:96 | for a request without '#', the `%1` result splits on its first '#' into the whole request and the old value's text after its first '#'; for a request holding '#', into the request's text before its first '#' and the rest of the request, '#', and the old second field |
| KvMerge.Field2Text | master/kv.go:108 | the `%2` result splits on its first '#' into the old value's text before its first '#' and the whole request |
| KvMerge.Merge | master/kv.go:78-128 | an update fails with a missing key exactly for `%1`/`%2` on an absent key; what it stores is a *string exactly on the `%1`/`%2` paths |
| KvMerge.MergeDelta | master/kv.go:81-93 | a delta always writes a plain string, canonical, reading back as old-or-0 plus the delta |
| KvMerge.MergeField1 | master/kv.go:94-105 | `%1` fails exactly on an absent key; otherwise, for a request without '#', the first field becomes the whole request and the old second field is kept; for a request holding '#', the first field is the request up to its own '#', and the request's rest moves in front of the old second field |
| KvMerge.MergeField2 | master/kv.go:106-117 | `%2` fails exactly on an absent key; otherwise the old first field is kept and the second becomes the whole request |
| KvMerge.MergeOverwrite | master/kv.go:120-125 | any other request is stored verbatim as a string, whether or not the key exists |
| KvMerge.FieldUpdateBlocksLaterMerges | master/kv.go:94-117 | after a `%1`/`%2` update, no later delta or field update on that key can run without a failed type assertion |
| KvMerge.IntendedMerge | master/kv.go:94-117 | corrected merge: same missing-key cases as Merge, and it always stores a plain string |
| KvMerge.IntendedFieldUpdates | master/kv.go:94-117 | corrected `%1x`/`%2y`: the new value splits into x and the old second field, or the old first field and y, and is a string later merges accept |
| KvMerge.Field1MarkerExample | master/kv.go:96-100 | on "a#b", `%1x` stores the *string "%1x#b" as written, and "x#b" as corrected |
| KvMerge.Field2MarkerExample | master/kv.go:108-112 | on "a#b", `%2y` stores the *string "a#%2y" as written, and "a#y" as corrected |
| KvMerge.Field1HashExample | master/kv.go:94-100 | on "a#b", the request "%1x#y" stores the *string "%1x#y#b", whose fields are "%1x" and "y#b": the old second field moves |
| KvMerge.FieldWrites | master/kv.go:94-117 | a `%1`/`%2` request on a stored string holding '#' can run, and stores Field1Text or Field2Text as a *string; the corrected merge stores the text after the marker as a string |
| KvMerge.DeltaExamples | master/kv.go:81-93 | `%+5` on "7" gives "12", `%-3` on "12" gives "9", `%+4` on an absent key gives "4" |
| KvFsm.PutCmd | master/kv_fsm_op.go:49-58 | the command carries the given opcode and a key whose prefix-stripped form is the caller's key; a nil value travels as empty bytes, any other value unchanged |
| KvFsm.StripPrefix | master/kv_fsm_op.go:69 | `key[len(kvPrefix):]` on a key starting with kvPrefix: the prefix followed by the result is the key |
| KvFsm.PrefixRoundTrip | master/kv_fsm_op.go:52-69 | a command key is kvPrefix + key exactly when it starts with kvPrefix and stripping the prefix gives key |
| MasterKv.SubmitErr | master/kv_fsm_op.go:24-34 | submit returns nil exactly when the command was committed; a marshal failure and a refused Submit give their own errors |
| MasterKv.LoadStep | master/kv_fsm_op.go:67-71 | storing one more snapshot entry under its stripped key keeps "present iff present before or loaded; a loaded entry wins" |
| MasterKv.Kv.constructor | master/kv.go:19-24 | a new store is empty and has committed nothing |
| MasterKv.Kv.Submit | master/kv_fsm_op.go:24-34 | the error is SubmitErr of the outcome, and only a committed command joins the log |
| MasterKv.Kv.SyncPutKv | master/kv_fsm_op.go:49-59 | proposes exactly PutCmd(kvPrefix, op, key, value) and returns submit's error |
| MasterKv.Kv.SyncAddKv | master/kv_fsm_op.go:37-39 | proposes the add opcode with the value's bytes |
| MasterKv.Kv.SyncDelKv | master/kv_fsm_op.go:41-43 | proposes the delete opcode with empty bytes |
| MasterKv.Kv.SyncUpdateKv | master/kv_fsm_op.go:45-47 | proposes the update opcode with the value's bytes |
| MasterKv.Kv.AddKey | master/kv.go:26-51 | returns the given value on every path; a nil or empty key or a nil value is ErrParamError and an existing key ErrDuplicateKey, both with no proposal and no change; otherwise submit's error, and the key holds the value verbatim exactly when the add was committed |
| MasterKv.Kv.DelKey | master/kv.go:53-67 | an absent key is ErrKeyNotExists with no proposal; otherwise a delete command with empty bytes, and the key alone leaves the map exactly when it was committed |
| MasterKv.Kv.UpdateKey | master/kv.go:69-129 | parameter errors as for AddKey; a `%1`/`%2` update on an absent key is ErrKeyNotExists with no proposal; otherwise the computed Merge value, not the request, is proposed and stored on commit; on a failed submit only the plain overwrite still returns the request |
| MasterKv.Kv.GetKey | master/kv.go:131-140 | the stored string, or ErrKeyNotExists for an absent key; it changes nothing |
| MasterKv.Kv.LoadKvStore | master/kv_fsm_op.go:61-73 | a failed scan returns its error and loads nothing; otherwise a key is present iff it was before or kvPrefix + key was found, and a found entry's value wins as a string |
| MasterKv.AddThenGet | master/kv.go:26-140 | an added key reads back as its value; adding it again is ErrDuplicateKey and keeps the first value |
| MasterKv.RefusedAddThenGet | master/kv.go:44-48 | an add whose submit is refused leaves the key unknown and the log empty |
| MasterKv.DeltaUpdates | master/kv.go:81-93 | `%+5` on "7" returns "12", then `%-3` returns "9"; `%+4` on an absent key returns "4" |
| MasterKv.DeleteThenGet | master/kv.go:53-67 | a deleted key is unknown; deleting it again is ErrKeyNotExists and proposes nothing |
| MasterKv.FieldUpdateLeavesPointer | master/kv.go:94-102 | `%1x` on "a#b" returns "%1x#b" and leaves a *string under the key |
| ExtendTriple.TripleSplit | metanode/partition_op_extend.go:46-48 | three decimals joined with "," split back into the same three parts |
| ExtendTriple.SumTripleFields | metanode/partition_op_extend.go:39-48 | SumTriple, the summed value, has exactly three canonical fields, each reading back as the sum of the old and incoming fields (an unparsable field counts 0) |
| ExtendTriple.SumTripleZero | metanode/partition_op_extend.go:39-48 | adding "0,0,0" leaves a canonical triple unchanged |
| ExtendTriple.SumTripleAssoc | metanode/partition_op_extend.go:39-48 | two successive updates equal one update by their sum: (a+b)+c == a+(b+c) on the text |
| ExtendValues.StepValue | metanode/partition_op_extend.go:91-113 | one Step puts the key into the record: old bytes + request bytes when appending (just the request bytes for a new key), the request bytes alone on a fresh record; other attributes unchanged |
| ExtendValues.FoldKeys | metanode/partition_op_extend.go:90-119 | after n keys Fold's record holds its old names plus every name visited |
| ExtendValues.AppendFoldValue | metanode/partition_op_extend.go:90-107 | on a tree record each name ends with its old bytes followed by every value the request gave it, in request order; unnamed attributes are unchanged |
| ExtendValues.PutFoldLastWins | metanode/partition_op_extend.go:111-119 | on a fresh record a name holds the last value the request gave it |
| ExtendValues.Requested | metanode/partition_op_extend.go:218-222 | exactly the requested names the record holds, each with its bytes |
| ExtendValues.AppendStepResponse | metanode/partition_op_extend.go:91-102 | one more key moves the record by one step and records the key's new value in the response |
| ExtendValues.FreshRequested | metanode/partition_op_extend.go:111-114 | on a fresh record the response lists the whole record |
| ExtendValues.FirstFailure | metanode/partition_op_extend.go:95-118 | the first uncommitted proposal: every proposal before it was committed, and it was not (or it is the count) |
| ExtendValues.BatchInfos | metanode/partition_op_extend.go:210-225 | one entry per requested inode that has a record and no other; each entry holds the requested names its record has |
| ExtendValues.BatchInfosSnoc | metanode/partition_op_extend.go:210-225 | one more requested inode adds its entry at the end when it has a record, and nothing otherwise |
| ExtendValues.BatchInfosAppend | metanode/partition_op_extend.go:210-225 | entries keep request order: the response for a concatenation of inode lists is the concatenation of responses |
| ExtendValues.Increment | metanode/partition_op_extend.go:298 | the parent gains one link (from 0 if absent); every other parent keeps its count |
| ExtendValues.Decrement | metanode/partition_op_extend.go:323-327 | a count above 1 goes down by one, a count of 1 or less (or absent) is removed, other parents are untouched |
| ExtendValues.AddParentCounts | metanode/partition_op_extend.go:290-300 | after AddParent, the parent attribute decodes to the old map with the parent incremented; the record keeps its names and no other attribute changes |
| ExtendValues.DelParentCounts | metanode/partition_op_extend.go:312-329 | DelParent is refused exactly when the attribute does not decode (also when it is missing); otherwise the record's names become the old ones plus "parent", no other attribute changes, and "parent" decodes to the decremented map, or to a nil map when the attribute held null |
| ExtendValues.AddThenDelParent | metanode/partition_op_extend.go:280-330 | with the key equal to "parent", a delete right after an add restores the decoded map |
| ExtendValues.DelParentWritesLiteral | metanode/partition_op_extend.go:319-328 | with another key, the delete leaves the incremented map under that key and writes the decremented one under "parent" |
| MetaPartitionExtend.PutError | metanode/partition_op_extend.go:271-278 | a marshal failure and a refused submit give their own errors |
| MetaPartitionExtend.PutErr | metanode/partition_op_extend.go:271-278 | putExtend returns nil exactly when the image was committed |
| MetaPartitionExtend.FoldLog | metanode/partition_op_extend.go:90-119 | proposal j is the whole record after j + 1 keys, under opFSMUpdateXAttr |
| MetaPartitionExtend.AppendRun | metanode/partition_op_extend.go:88-120 | the loop keeps the proposals made before key i and adds at most one per remaining key; it replies Ok exactly when every remaining proposal is committed |
| MetaPartitionExtend.AppendResult | metanode/partition_op_extend.go:88-120 | the closed form keeps earlier proposals and adds at most one per key; Ok exactly when every proposal is committed, otherwise the error of an uncommitted one |
| MetaPartitionExtend.AppendRunCommitted | metanode/partition_op_extend.go:95-106 | a committed key moves the loop to the closed form's state after one more key |
| MetaPartitionExtend.AppendRunFailed | metanode/partition_op_extend.go:95-106 | a refused key ends the loop with its error, the record changed through that key, and the earlier proposals |
| MetaPartitionExtend.AppendRunResult | metanode/partition_op_extend.go:88-120 | from any key up to the first failure, the loop ends in the closed form AppendResult |
| MetaPartitionExtend.AppendRunStart | metanode/partition_op_extend.go:88-120 | the loop started on an empty response ends in the closed form AppendResult |
| MetaPartitionExtend.MetaPartition.PutExtend | metanode/partition_op_extend.go:271-278 | the error is PutErr of the outcome; only a committed image joins the log |
| MetaPartitionExtend.MetaPartition.UpdateXAttr | metanode/partition_op_extend.go:27-76 | existing attribute: a one-attribute image holding SumTriple, with the tree unchanged; record without the attribute: the request is put into the tree record verbatim and the whole record proposed; no record: a one-attribute image of the request, with the tree unchanged |
| MetaPartitionExtend.MetaPartition.AppendXAttr | metanode/partition_op_extend.go:78-129 | reply, record and log equal the closed form AppendResult: proposals up to the first failure, the record folded through the failing key, then the error or the requested names with their final values; without a record the tree is unchanged |
| MetaPartitionExtend.MetaPartition.AppendInPlace | metanode/partition_op_extend.go:88-109 | the tree record, reply and log are the result of the key-by-key run on the tree record |
| MetaPartitionExtend.MetaPartition.AppendOne | metanode/partition_op_extend.go:91-107 | the key gets old bytes + request bytes (or the request bytes), the whole record is proposed, and the new value is returned |
| MetaPartitionExtend.MetaPartition.AppendFresh | metanode/partition_op_extend.go:110-119 | reply and log are the result of the key-by-key run on a fresh record; the tree is not touched |
| MetaPartitionExtend.MetaPartition.SetXAttr | metanode/partition_op_extend.go:131-140 | proposes exactly {key: value} under opFSMSetXAttr |
| MetaPartitionExtend.MetaPartition.BatchSetXAttr | metanode/partition_op_extend.go:142-154 | proposes one image holding every requested pair, under opFSMSetXAttr |
| MetaPartitionExtend.MetaPartition.RemoveXAttr | metanode/partition_op_extend.go:235-244 | proposes {key: nil} under opFSMRemoveXAttr; nothing is deleted here |
| MetaPartitionExtend.MetaPartition.GetXAttr | metanode/partition_op_extend.go:156-178 | the attribute's bytes, or empty when the inode has no record or the record lacks the key |
| MetaPartitionExtend.MetaPartition.GetAllXAttr | metanode/partition_op_extend.go:180-202 | the inode's whole record, or empty when it has none |
| MetaPartitionExtend.MetaPartition.BatchGetXAttr | metanode/partition_op_extend.go:204-233 | the response is BatchInfos of the tree: record-holding inodes in request order, each with the requested names it has |
| MetaPartitionExtend.MetaPartition.Pick | metanode/partition_op_extend.go:218-222 | the requested names the record holds, with their bytes |
| MetaPartitionExtend.MetaPartition.ListXAttr | metanode/partition_op_extend.go:246-269 | every attribute name of the record, each exactly once; empty without a record |
| MetaPartitionExtend.MetaPartition.AddExtendParentIno | metanode/partition_op_extend.go:280-304 | parent 0 changes nothing; an inode without a record gets an empty one; otherwise only that record changes, by AddParent |
| MetaPartitionExtend.SecondParentAddPanics | metanode/partition_op_extend.go:291-298 | after addExtendParentIno inserts an empty record, that record's parent attribute does not decode, so a second call for the inode panics |
| MetaPartitionExtend.MetaPartition.DelExtendParentIno | metanode/partition_op_extend.go:306-330 | parent 0 returns nil and changes nothing; a missing record or an undecodable map is an error with no change; otherwise the record becomes DelParent's result |

## Left out

- Consensus, `RaftCmd.Marshal`, `Extend.Bytes` and the metanode `submit`: a proposal's fate is the `Outcome` parameter. The FSM apply handlers are not shown, so committed images are logged but never merged into the tree.
- Locking and concurrency: `kvStoreMutex`, `sync.Map` atomicity, `xattrLock`, the per-record `e.mu`, and the copy-on-write of `CopyGet`.
- HTTP handling, the SDK client and the command-line tool: `master/api_service_kv.go`, `sdk/master/api_kv.go` and `cli/cmd/kv.go` are not part of this model.
- Reply packets: the JSON encoding of responses, including its error branch (`metanode/partition_op_extend.go:121-126`), is not modelled. Marshalling a map of strings does not fail.
- Logging.
- The snapshot store's `SeekForPrefix` is a `SeekResult` parameter. `LoadKvStore` requires what that scan promises: every key it returns starts with kvPrefix.
- The JSON of the parent-link map: decode and encode are an abstract `LinkCodec`. The lemmas assume only `ValidCodec`: a marshalled map decodes to itself, "null" decodes to a nil map, and empty bytes do not decode.
- The values of `kvPrefix` and `proto.ParentKey` are defined outside these files. They are fields set at construction.
- Strconv.ParseInt: integers are unbounded. Range clamping to int64 and the range error are not modelled.
- ExtendTriple.SumTripleFields: the field sums do not wrap around at 64 bits as the Go int64 addition does.
- KvMerge.DeltaText: the delta addition does not wrap around at 64 bits.
- MetaPartitionExtend.MetaPartition.ListXAttr: does not state the order of the names. It comes from `Extend.Range`, which is not part of this model.
- MetaPartitionExtend.MetaPartition.AppendXAttr: the per-key outcomes come in one sequence as long as the request, and only those up to the first failure are used.
- Panics are preconditions:
  - `getKey` on a *string (`GetKey`);
  - a delta or field update on a *string, or `%1` on a value without '#' (`UpdateKey`);
  - fewer than three comma fields (`UpdateXAttr`);
  - fewer values than keys (`AppendXAttr`);
  - a parent attribute that does not decode to a map (`AddExtendParentIno`), which includes a second call on an inode the first call gave an empty record (`SecondParentAddPanics`).

## Findings

| source | as written | input that shows it | evidently intended | confidence | as-written member | corrected member |
|---|---|---|---|---|---|---|
| master/kv.go:96-108 | `%1` / `%2` put the whole request value, marker included, into the new field | old "a#b", request "%1x": stores "%1x#b" (and "%2y" stores "a#%2y") | the text after the two-character marker replaces the field: "x#b" and "a#y" | medium, not executed | KvMerge.Field1MarkerExample | KvMerge.IntendedFieldUpdates |
| master/kv.go:100-112 | the `%1` / `%2` branches store a `*string`, while `getKey` and later merges assert `string` | "a#b" then "%1x": `kvStore` holds a *string, so a later `getKey` or `%+1` on that key fails its type assertion | store the string value, as every other path does | high, not executed | KvMerge.FieldUpdateBlocksLaterMerges | KvMerge.IntendedMerge |

`MasterKv.Kv.UpdateKey` follows the code as written, through `Merge`.
`IntendedMerge` gives the corrected behaviour, and `IntendedFieldUpdates`
proves the intended field replacement about it.
