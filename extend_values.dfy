/**
 * The values the metanode's extended-attribute operations compute
 * (metanode/partition_op_extend.go), lifted out of the partition as pure
 * functions: the per-key folds of AppendXAttr, the read-side projections, and
 * the parent-link counts kept under the parent attribute.
 */
module ExtendValues {
  import opened Optional
  import opened Strconv
  import opened GoStrings
  import opened Replication

  /** An inode number (uint64). */
  type Ino = n: int | 0 <= n < 0x1_0000_0000_0000_0000

  /** One inode's extended attributes (Extend.dataMap): attribute name to bytes. */
  type Record = map<string, string>

  /** A record image handed to putExtend; None is the nil value RemoveXAttr sends as its removal marker. */
  type Image = map<string, Option<string>>

  function AsImage(rec: Record): Image {
    map k | k in rec :: Some(rec[k])
  }

  // ---------------------------------------------------------------------------
  // AppendXAttr's per-key steps

  /**
   * One iteration of AppendXAttr: on a record taken from the tree an existing
   * value gets the request bytes appended and an absent key gets them as they
   * are; on a fresh record the bytes are put as they are.
   */
  function Step(rec: Record, key: string, value: string, appending: bool): (r: Record)
  {
    rec[key := if appending && key in rec then rec[key] + value else value]
  }

  /**
   * One step puts the key into the record: the old bytes followed by the
   * request bytes when appending (none when the key is new), the request bytes
   * alone otherwise; every other attribute stays as it was.
   */
  lemma StepValue(rec: Record, key: string, value: string, appending: bool)
    ensures var r := Step(rec, key, value, appending);
      && r.Keys == rec.Keys + {key}
      && r[key] == (if appending then ValueOr(rec, key) + value else value)
      && forall k :: k in rec && k != key ==> r[k] == rec[k]
  {
  }

  /** The record after the first `n` keys of the request. */
  function Fold(rec: Record, keys: seq<string>, values: seq<string>, n: nat, appending: bool): Record
    requires n <= |keys| && n <= |values|
  {
    if n == 0 then rec else Step(Fold(rec, keys, values, n - 1, appending), keys[n - 1], values[n - 1], appending)
  }

  /** Folding keeps every attribute the record had and adds each key it visits. */
  lemma {:induction false} FoldKeys(rec: Record, keys: seq<string>, values: seq<string>, n: nat, appending: bool)
    requires n <= |keys| && n <= |values|
    ensures Fold(rec, keys, values, n, appending).Keys == rec.Keys + set j | 0 <= j < n :: keys[j]
  {
    if n > 0 {
      FoldKeys(rec, keys, values, n - 1, appending);
      var visited := set j | 0 <= j < n :: keys[j];
      assert visited == (set j | 0 <= j < n - 1 :: keys[j]) + {keys[n - 1]};
    }
  }

  /** The bytes appended under `key` by the first `n` steps, in request order. */
  function Appended(keys: seq<string>, values: seq<string>, n: nat, key: string): string
    requires n <= |keys| && n <= |values|
  {
    if n == 0 then ""
    else Appended(keys, values, n - 1, key) + (if keys[n - 1] == key then values[n - 1] else "")
  }

  function ValueOr(rec: Record, key: string): string {
    if key in rec then rec[key] else ""
  }

  /**
   * On a record from the tree, every key ends up holding its old bytes (none
   * when absent) followed by every request value given for it, in request
   * order; a key the request does not name keeps its value.
   */
  lemma {:induction false} AppendFoldValue(rec: Record, keys: seq<string>, values: seq<string>, n: nat, key: string)
    requires n <= |keys| && n <= |values|
    ensures ValueOr(Fold(rec, keys, values, n, true), key) == ValueOr(rec, key) + Appended(keys, values, n, key)
  {
    if n > 0 {
      AppendFoldValue(rec, keys, values, n - 1, key);
      var prev := Fold(rec, keys, values, n - 1, true);
      if keys[n - 1] == key {
        assert ValueOr(Fold(rec, keys, values, n, true), key) == ValueOr(prev, key) + values[n - 1];
      } else {
        assert ValueOr(Fold(rec, keys, values, n, true), key) == ValueOr(prev, key);
      }
    }
  }

  /**
   * On a fresh record the last value given for a key wins: unless the request
   * names `keys[j]` again before step `n`, that key holds value `j`.
   */
  lemma {:induction false} PutFoldLastWins(rec: Record, keys: seq<string>, values: seq<string>, n: nat, j: nat)
    requires j < n <= |keys| && n <= |values|
    requires keys[j] !in keys[j + 1..n]
    ensures keys[j] in Fold(rec, keys, values, n, false) && Fold(rec, keys, values, n, false)[keys[j]] == values[j]
  {
    if n - 1 != j {
      assert keys[j + 1..n] == keys[j + 1..n - 1] + [keys[n - 1]];
      PutFoldLastWins(rec, keys, values, n - 1, j);
    }
  }

  /** The response entries of AppendXAttr on a tree record: the requested names, with what they now hold. */
  function Requested(rec: Record, keys: seq<string>): (r: map<string, string>)
    ensures r.Keys == rec.Keys * set k | k in keys
    ensures forall k :: k in r ==> r[k] == rec[k]
  {
    map k | k in keys && k in rec :: rec[k]
  }

  /** Recording one more step of AppendXAttr in its response. */
  lemma RequestedStep(rec: Record, keys: seq<string>, key: string, value: string)
    requires forall k :: k in keys ==> k in rec
    ensures Requested(rec[key := value], keys + [key]) == Requested(rec, keys)[key := value]
  {
  }

  /** One more key of AppendXAttr: the record and the response both take the key's new value. */
  lemma AppendStepResponse(base: Record, keys: seq<string>, values: seq<string>, i: nat, appending: bool)
    requires i < |keys| && i < |values|
    ensures var rec := Fold(base, keys, values, i, appending);
      var next := Step(rec, keys[i], values[i], appending);
      && Fold(base, keys, values, i + 1, appending) == next
      && Requested(next, keys[..i + 1]) == Requested(rec, keys[..i])[keys[i] := next[keys[i]]]
  {
  }

  /** A fresh record holds only names the request gave, so the response lists all of it. */
  lemma {:induction false} FreshRequested(keys: seq<string>, values: seq<string>)
    requires |keys| <= |values|
    ensures Requested(Fold(map[], keys, values, |keys|, false), keys) == Fold(map[], keys, values, |keys|, false)
  {
    var r := Fold(map[], keys, values, |keys|, false);
    FoldKeys(map[], keys, values, |keys|, false);
    forall k | k in r
      ensures k in keys
    {
      var j :| 0 <= j < |keys| && keys[j] == k;
    }
  }

  /** The index of the first proposal that was not committed, or the count when all were. */
  function FirstFailure(outcomes: seq<Outcome>): (i: nat)
    ensures i <= |outcomes|
    ensures forall j :: 0 <= j < i ==> outcomes[j].Committed?
    ensures i < |outcomes| ==> !outcomes[i].Committed?
  {
    FailureFrom(outcomes, 0)
  }

  function FailureFrom(outcomes: seq<Outcome>, k: nat): (i: nat)
    requires k <= |outcomes|
    ensures k <= i <= |outcomes|
    ensures forall j :: k <= j < i ==> outcomes[j].Committed?
    ensures i < |outcomes| ==> !outcomes[i].Committed?
    decreases |outcomes| - k
  {
    if k == |outcomes| || !outcomes[k].Committed? then k else FailureFrom(outcomes, k + 1)
  }

  // ---------------------------------------------------------------------------
  // Reads

  /** The per-inode entry of BatchGetXAttr's response. */
  datatype XAttrInfo = XAttrInfo(inode: Ino, xattrs: map<string, string>)

  /**
   * BatchGetXAttr's response: one entry per requested inode that has a record,
   * in request order, holding those requested names the record has.
   */
  function BatchInfos(tree: map<Ino, Record>, inodes: seq<Ino>, keys: seq<string>): (r: seq<XAttrInfo>)
    ensures |r| <= |inodes|
    ensures forall i :: 0 <= i < |r| ==> r[i].inode in tree && r[i].inode in inodes
    ensures forall i :: 0 <= i < |r| ==> r[i].xattrs == Requested(tree[r[i].inode], keys)
    ensures forall ino :: ino in inodes && ino in tree ==> exists i :: 0 <= i < |r| && r[i].inode == ino
  {
    if |inodes| == 0 then []
    else
      var front := BatchInfos(tree, inodes[..|inodes| - 1], keys);
      var ino := inodes[|inodes| - 1];
      assert forall q :: q in inodes ==> q in inodes[..|inodes| - 1] || q == ino;
      if ino in tree then
        var r := front + [XAttrInfo(ino, Requested(tree[ino], keys))];
        assert r[|front|].inode == ino;
        assert forall i :: 0 <= i < |front| ==> r[i] == front[i];
        r
      else front
  }

  /** One more requested inode adds its entry, if it has a record, at the end. */
  lemma BatchInfosSnoc(tree: map<Ino, Record>, inodes: seq<Ino>, ino: Ino, keys: seq<string>)
    ensures BatchInfos(tree, inodes + [ino], keys)
         == BatchInfos(tree, inodes, keys) + (if ino in tree then [XAttrInfo(ino, Requested(tree[ino], keys))] else [])
  {
    assert (inodes + [ino])[..|inodes|] == inodes;
  }

  /** Entries keep the order of the request: the response for two runs of inodes is the two responses one after the other. */
  lemma {:induction false} BatchInfosAppend(tree: map<Ino, Record>, front: seq<Ino>, back: seq<Ino>, keys: seq<string>)
    ensures BatchInfos(tree, front + back, keys) == BatchInfos(tree, front, keys) + BatchInfos(tree, back, keys)
    decreases |back|
  {
    if |back| > 0 {
      var last := back[|back| - 1];
      assert (front + back)[..|front + back| - 1] == front + back[..|back| - 1];
      BatchInfosAppend(tree, front, back[..|back| - 1], keys);
    } else {
      assert front + back == front;
    }
  }

  // ---------------------------------------------------------------------------
  // The parent-link counts

  /** What json.Unmarshal makes of the parent attribute into a nil map[uint64]int. */
  datatype LinkDecode = Undecodable | NullMap | Links(counts: map<Ino, int>)

  /**
   * JSON for the parent-link map, left abstract: `decode` is json.Unmarshal,
   * `encode` json.Marshal of a map, `nullText` json.Marshal of a nil map.
   */
  datatype LinkCodec = LinkCodec(decode: string -> LinkDecode, encode: map<Ino, int> -> string, nullText: string)

  /** What the model assumes of JSON: a marshalled map reads back as itself, "null" as a nil map, and empty bytes do not decode. */
  ghost predicate ValidCodec(c: LinkCodec) {
    && (forall m :: c.decode(c.encode(m)) == Links(m))
    && c.decode(c.nullText) == NullMap
    && c.decode("") == Undecodable
  }

  /** The key delExtendParentIno writes back to. */
  const ParentLiteral := "parent"

  /** The attribute bytes, nil (no bytes) when absent. */
  function ParentText(rec: Record, parentKey: string): string {
    ValueOr(rec, parentKey)
  }

  function Count(m: map<Ino, int>, p: Ino): int {
    if p in m then m[p] else 0
  }

  /** data[parentIno] += 1 */
  function Increment(m: map<Ino, int>, p: Ino): (r: map<Ino, int>)
    ensures r.Keys == m.Keys + {p}
    ensures r[p] == Count(m, p) + 1
    ensures forall q :: q in m && q != p ==> r[q] == m[q]
  {
    m[p := Count(m, p) + 1]
  }

  /** A count above 1 goes down by one; otherwise the parent is deleted. */
  function Decrement(m: map<Ino, int>, p: Ino): (r: map<Ino, int>)
    ensures p in r <==> Count(m, p) > 1
    ensures p in r ==> r[p] == m[p] - 1
    ensures r.Keys - {p} == m.Keys - {p}
    ensures forall q :: q in m && q != p ==> q in r && r[q] == m[q]
  {
    if Count(m, p) > 1 then m[p := m[p] - 1] else m - {p}
  }

  /** addExtendParentIno on an existing record whose parent attribute decodes to a map. */
  function AddParent(rec: Record, parentKey: string, codec: LinkCodec, p: Ino): (r: Record)
    requires codec.decode(ParentText(rec, parentKey)).Links?
  {
    rec[parentKey := codec.encode(Increment(codec.decode(ParentText(rec, parentKey)).counts, p))]
  }

  datatype DelOutcome = Updated(rec: Record) | DecodeFailed

  /**
   * delExtendParentIno on an existing record: reads the map under `parentKey`
   * and writes the result under "parent"; a nil map is written back as null.
   */
  function DelParent(rec: Record, parentKey: string, codec: LinkCodec, p: Ino): (r: DelOutcome)
  {
    match codec.decode(ParentText(rec, parentKey))
    case Undecodable => DecodeFailed
    case NullMap => Updated(rec[ParentLiteral := codec.nullText])
    case Links(m) => Updated(rec[ParentLiteral := codec.encode(Decrement(m, p))])
  }

  /** After an add the parent attribute reads back as the old map with the parent's count one higher; nothing else changes. */
  lemma AddParentCounts(rec: Record, parentKey: string, codec: LinkCodec, p: Ino)
    requires ValidCodec(codec) && codec.decode(ParentText(rec, parentKey)).Links?
    ensures var m := codec.decode(ParentText(rec, parentKey)).counts;
      && codec.decode(ParentText(AddParent(rec, parentKey, codec, p), parentKey)) == Links(Increment(m, p))
      && parentKey in rec
      && AddParent(rec, parentKey, codec, p).Keys == rec.Keys
      && forall k :: k in rec && k != parentKey ==> AddParent(rec, parentKey, codec, p)[k] == rec[k]
  {
  }

  /**
   * A delete is refused exactly when the attribute does not decode. Otherwise
   * "parent" is written and nothing else: a map decodes to the old one with
   * the parent's count decremented or the parent removed, the other parents
   * untouched; a nil map is written back as null.
   */
  lemma DelParentCounts(rec: Record, parentKey: string, codec: LinkCodec, p: Ino)
    requires ValidCodec(codec)
    ensures DelParent(rec, parentKey, codec, p).DecodeFailed? <==> codec.decode(ParentText(rec, parentKey)).Undecodable?
    ensures parentKey !in rec ==> DelParent(rec, parentKey, codec, p).DecodeFailed?
    ensures DelParent(rec, parentKey, codec, p).Updated? ==>
      var r := DelParent(rec, parentKey, codec, p).rec;
      && r.Keys == rec.Keys + {ParentLiteral}
      && forall k :: k in rec && k != ParentLiteral ==> r[k] == rec[k]
    ensures codec.decode(ParentText(rec, parentKey)).NullMap? ==>
      codec.decode(DelParent(rec, parentKey, codec, p).rec[ParentLiteral]) == NullMap
    ensures codec.decode(ParentText(rec, parentKey)).Links? ==>
      var m := codec.decode(ParentText(rec, parentKey)).counts;
      codec.decode(DelParent(rec, parentKey, codec, p).rec[ParentLiteral]) == Links(Decrement(m, p))
  {
  }

  /**
   * When the parent attribute is stored under "parent", removing a link just
   * added gives back the map the record held, provided the parent was absent
   * or held a positive count.
   */
  lemma {:induction false} AddThenDelParent(rec: Record, codec: LinkCodec, p: Ino)
    requires ValidCodec(codec) && codec.decode(ParentText(rec, ParentLiteral)).Links?
    requires var m := codec.decode(ParentText(rec, ParentLiteral)).counts; p !in m || m[p] >= 1
    ensures var m := codec.decode(ParentText(rec, ParentLiteral)).counts;
      DelParent(AddParent(rec, ParentLiteral, codec, p), ParentLiteral, codec, p) == Updated(rec[ParentLiteral := codec.encode(m)])
  {
    var m := codec.decode(ParentText(rec, ParentLiteral)).counts;
    var added := AddParent(rec, ParentLiteral, codec, p);
    assert codec.decode(ParentText(added, ParentLiteral)) == Links(Increment(m, p));
    assert Decrement(Increment(m, p), p) == m;
  }

  /**
   * When the parent attribute is kept under another name, a delete reads the
   * map there but writes "parent": the attribute that was read keeps the
   * incremented count.
   */
  lemma {:induction false} DelParentWritesLiteral(rec: Record, parentKey: string, codec: LinkCodec, p: Ino)
    requires ValidCodec(codec) && parentKey != ParentLiteral
    requires codec.decode(ParentText(rec, parentKey)).Links?
    ensures var m := codec.decode(ParentText(rec, parentKey)).counts;
      var r := DelParent(AddParent(rec, parentKey, codec, p), parentKey, codec, p);
      && r.Updated?
      && codec.decode(ParentText(r.rec, parentKey)) == Links(Increment(m, p))
      && codec.decode(r.rec[ParentLiteral]) == Links(Decrement(Increment(m, p), p))
  {
  }
}
