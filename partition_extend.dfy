/**
 * A meta partition's extended-attribute operations
 * (metanode/partition_op_extend.go): the index from inode to attribute record,
 * the record images proposed to the replicated partition, and the parent-link
 * counts rewritten in place.
 */
module MetaPartitionExtend {
  import opened Optional
  import opened Replication
  import opened ExtendValues
  import opened ExtendTriple

  /** The FSM operation a record image is proposed under. */
  datatype ExtOp = OpFSMUpdateXAttr | OpFSMSetXAttr | OpFSMRemoveXAttr

  /** One putExtend: the operation, the inode and the record image. */
  datatype Proposal = Proposal(op: ExtOp, inode: Ino, image: Image)

  datatype ExtError =
    | MarshalError     // Extend.Bytes failed; the partition was not called
    | SubmitError      // the partition refused the proposal
    | ExtendNotFound   // the inode has no record
    | LinkDecodeError  // the parent attribute is not a JSON map

  /** A reply packet: success with a body, or OpErr with the error. */
  datatype Reply<T> = Ok(body: T) | Failed(err: ExtError)

  function PutError(outcome: Outcome): (err: ExtError)
    requires !outcome.Committed?
    ensures outcome.EncodeFailed? <==> err == MarshalError
    ensures outcome.SubmitFailed? <==> err == SubmitError
  {
    if outcome.EncodeFailed? then MarshalError else SubmitError
  }

  /** The error putExtend returns: nil exactly when the proposal was committed. */
  function PutErr(outcome: Outcome): (err: Option<ExtError>)
    ensures err.None? <==> outcome.Committed?
    ensures err.Some? ==> err.value == PutError(outcome)
  {
    if outcome.Committed? then None else Some(PutError(outcome))
  }

  /**
   * The proposals AppendXAttr makes for its first `n` keys: after each key the
   * whole record as it then stands, under opFSMUpdateXAttr.
   */
  function FoldLog(inode: Ino, rec: Record, keys: seq<string>, values: seq<string>, n: nat, appending: bool): (r: seq<Proposal>)
    requires n <= |keys| && n <= |values|
    ensures |r| == n
    ensures forall j :: 0 <= j < n ==> r[j] == Proposal(OpFSMUpdateXAttr, inode, AsImage(Fold(rec, keys, values, j + 1, appending)))
  {
    if n == 0 then [] else
      FoldLog(inode, rec, keys, values, n - 1, appending)
      + [Proposal(OpFSMUpdateXAttr, inode, AsImage(Fold(rec, keys, values, n, appending)))]
  }

  /** What AppendXAttr leaves behind: its reply, the record it worked on, and the proposal log. */
  datatype AppendEnd = AppendEnd(reply: Reply<map<string, string>>, rec: Record, log: seq<Proposal>)

  /**
   * AppendXAttr from key `i` on, step by step as the loop runs it: put the
   * key's new value into the record, note it in the response, propose the
   * record, and stop at the first proposal that is not committed.
   */
  function AppendRun(inode: Ino, keys: seq<string>, values: seq<string>, outcomes: seq<Outcome>, appending: bool,
                     i: nat, rec: Record, response: map<string, string>, log: seq<Proposal>): (r: AppendEnd)
    requires i <= |keys| <= |values| && |outcomes| == |keys|
    ensures log <= r.log && |r.log| <= |log| + |keys| - i
    ensures r.reply.Ok? <==> forall j :: i <= j < |keys| ==> outcomes[j].Committed?
    decreases |keys| - i
  {
    if i == |keys| then AppendEnd(Ok(response), rec, log)
    else
      var next := Step(rec, keys[i], values[i], appending);
      var response' := response[keys[i] := next[keys[i]]];
      if outcomes[i].Committed? then
        AppendRun(inode, keys, values, outcomes, appending, i + 1, next, response',
                  log + [Proposal(OpFSMUpdateXAttr, inode, AsImage(next))])
      else AppendEnd(Failed(PutError(outcomes[i])), next, log)
  }

  /**
   * AppendXAttr in closed form: the keys up to the first uncommitted proposal
   * are proposed in turn; the record ends up folded over those keys and the
   * failing one; the reply is that proposal's error, or the requested names
   * with their final values when every proposal was committed.
   */
  function AppendResult(inode: Ino, base: Record, keys: seq<string>, values: seq<string>, outcomes: seq<Outcome>,
                        appending: bool, log: seq<Proposal>): (r: AppendEnd)
    requires |keys| <= |values| && |outcomes| == |keys|
    ensures log <= r.log && |r.log| <= |log| + |keys|
    ensures r.reply.Ok? <==> forall j :: 0 <= j < |keys| ==> outcomes[j].Committed?
    ensures r.reply.Failed? ==> exists j :: 0 <= j < |keys| && !outcomes[j].Committed? && r.reply.err == PutError(outcomes[j])
  {
    var stop := FirstFailure(outcomes);
    if stop < |keys| then
      AppendEnd(Failed(PutError(outcomes[stop])), Fold(base, keys, values, stop + 1, appending),
                log + FoldLog(inode, base, keys, values, stop, appending))
    else
      AppendEnd(Ok(Requested(Fold(base, keys, values, |keys|, appending), keys)), Fold(base, keys, values, |keys|, appending),
                log + FoldLog(inode, base, keys, values, |keys|, appending))
  }

  /** The loop's state after `i` keys, as the closed form describes it. */
  function RunAt(inode: Ino, base: Record, keys: seq<string>, values: seq<string>, outcomes: seq<Outcome>,
                 appending: bool, log: seq<Proposal>, i: nat): AppendEnd
    requires |keys| <= |values| && |outcomes| == |keys| && i <= |keys|
  {
    AppendRun(inode, keys, values, outcomes, appending, i, Fold(base, keys, values, i, appending),
              Requested(Fold(base, keys, values, i, appending), keys[..i]),
              log + FoldLog(inode, base, keys, values, i, appending))
  }

  /** A committed key moves the loop on to the state after one more key. */
  lemma AppendRunCommitted(inode: Ino, base: Record, keys: seq<string>, values: seq<string>,
                           outcomes: seq<Outcome>, appending: bool, log: seq<Proposal>, i: nat)
    requires |keys| <= |values| && |outcomes| == |keys| && i < |keys| && outcomes[i].Committed?
    ensures RunAt(inode, base, keys, values, outcomes, appending, log, i)
         == RunAt(inode, base, keys, values, outcomes, appending, log, i + 1)
  {
    var rec := Fold(base, keys, values, i, appending);
    var next := Step(rec, keys[i], values[i], appending);
    AppendStepResponse(base, keys, values, i, appending);
    assert log + FoldLog(inode, base, keys, values, i + 1, appending)
        == log + FoldLog(inode, base, keys, values, i, appending) + [Proposal(OpFSMUpdateXAttr, inode, AsImage(next))];
  }

  /** An uncommitted key ends the loop with its error. */
  lemma AppendRunFailed(inode: Ino, base: Record, keys: seq<string>, values: seq<string>,
                        outcomes: seq<Outcome>, appending: bool, log: seq<Proposal>, i: nat)
    requires |keys| <= |values| && |outcomes| == |keys| && i < |keys| && !outcomes[i].Committed?
    ensures RunAt(inode, base, keys, values, outcomes, appending, log, i)
         == AppendEnd(Failed(PutError(outcomes[i])), Fold(base, keys, values, i + 1, appending),
                      log + FoldLog(inode, base, keys, values, i, appending))
  {
  }

  /** With every key committed the loop ends in the closed form's success. */
  lemma AppendRunDone(inode: Ino, base: Record, keys: seq<string>, values: seq<string>,
                      outcomes: seq<Outcome>, appending: bool, log: seq<Proposal>)
    requires |keys| <= |values| && |outcomes| == |keys| && FirstFailure(outcomes) == |keys|
    ensures RunAt(inode, base, keys, values, outcomes, appending, log, |keys|)
         == AppendResult(inode, base, keys, values, outcomes, appending, log)
  {
    assert keys[..|keys|] == keys;
  }

  /** Running the loop from any point it reaches ends in the closed form. */
  lemma {:induction false} AppendRunResult(inode: Ino, base: Record, keys: seq<string>, values: seq<string>,
                                           outcomes: seq<Outcome>, appending: bool, log: seq<Proposal>, i: nat)
    requires |keys| <= |values| && |outcomes| == |keys|
    requires i <= |keys| && i <= FirstFailure(outcomes)
    ensures RunAt(inode, base, keys, values, outcomes, appending, log, i)
         == AppendResult(inode, base, keys, values, outcomes, appending, log)
    decreases |keys| - i
  {
    if i == |keys| {
      AppendRunDone(inode, base, keys, values, outcomes, appending, log);
    } else if outcomes[i].Committed? {
      AppendRunCommitted(inode, base, keys, values, outcomes, appending, log, i);
      AppendRunResult(inode, base, keys, values, outcomes, appending, log, i + 1);
    } else {
      AppendRunFailed(inode, base, keys, values, outcomes, appending, log, i);
    }
  }

  /** The loop's starting point is the closed form's point 0. */
  lemma AppendRunStart(inode: Ino, base: Record, keys: seq<string>, values: seq<string>,
                       outcomes: seq<Outcome>, appending: bool, log: seq<Proposal>)
    requires |keys| <= |values| && |outcomes| == |keys|
    ensures AppendRun(inode, keys, values, outcomes, appending, 0, base, map[], log)
         == AppendResult(inode, base, keys, values, outcomes, appending, log)
  {
    assert Requested(base, keys[..0]) == map[];
    assert log + FoldLog(inode, base, keys, values, 0, appending) == log;
    AppendRunResult(inode, base, keys, values, outcomes, appending, log, 0);
    assert RunAt(inode, base, keys, values, outcomes, appending, log, 0)
        == AppendRun(inode, keys, values, outcomes, appending, 0, base, map[], log);
  }

  /**
   * addExtendParentIno twice on an inode without a record: the first call
   * leaves an empty record, whose parent attribute is absent and does not
   * decode to a map, so the second call breaks AddExtendParentIno's
   * precondition (the source's `data[parentIno] += 1` writes to a nil map).
   */
  lemma SecondParentAddPanics(tree: map<Ino, Record>, inode: Ino, parentKey: string, codec: LinkCodec)
    requires ValidCodec(codec) && inode !in tree
    ensures var after := tree[inode := map[]];
      inode in after && codec.decode(ParentText(after[inode], parentKey)) == Undecodable
  {
  }

  class MetaPartition {
    /** proto.ParentKey, the attribute the parent links are read from (its value is defined outside these files). */
    const parentKey: string
    /** JSON for the parent-link map. */
    const codec: LinkCodec
    /** extendTree: inode to its attribute record. */
    var extendTree: map<Ino, Record>
    /** The record images the replicated partition accepted, in order. */
    var log: seq<Proposal>

    constructor (parentKey: string, codec: LinkCodec)
      ensures this.parentKey == parentKey && this.codec == codec
      ensures extendTree == map[] && log == []
    {
      this.parentKey := parentKey;
      this.codec := codec;
      extendTree := map[];
      log := [];
    }

    /** putExtend: marshal the image, then submit it; either step may fail. */
    method PutExtend(op: ExtOp, inode: Ino, image: Image, outcome: Outcome) returns (err: Option<ExtError>)
      modifies this`log
      ensures err == PutErr(outcome)
      ensures log == Commit(old(log), Proposal(op, inode, image), outcome)
    {
      if outcome.Committed? {
        log := log + [Proposal(op, inode, image)];
        err := None;
      } else {
        err := Some(PutError(outcome));
      }
    }

    /**
     * UpdateXAttr: for an attribute the inode's record already holds, a
     * one-attribute image with the summed triple; for one it lacks, the
     * request value is put into the record in the tree and the whole record
     * proposed; for an inode without a record, a one-attribute image with the
     * request value. The tree itself changes only in the middle case, and
     * there before the proposal, whatever becomes of it.
     */
    method UpdateXAttr(inode: Ino, key: string, value: string, outcome: Outcome) returns (err: Option<ExtError>)
      requires HasTriple(value)
      requires inode in extendTree && key in extendTree[inode] ==> HasTriple(extendTree[inode][key])
      modifies this`extendTree, this`log
      ensures err == PutErr(outcome)
      ensures inode in old(extendTree) && key in old(extendTree)[inode] ==>
        && extendTree == old(extendTree)
        && log == Commit(old(log), Proposal(OpFSMUpdateXAttr, inode,
             map[key := Some(SumTriple(old(extendTree)[inode][key], value))]), outcome)
      ensures inode in old(extendTree) && key !in old(extendTree)[inode] ==>
        && extendTree == old(extendTree)[inode := old(extendTree)[inode][key := value]]
        && log == Commit(old(log), Proposal(OpFSMUpdateXAttr, inode, AsImage(extendTree[inode])), outcome)
      ensures inode !in old(extendTree) ==>
        && extendTree == old(extendTree)
        && log == Commit(old(log), Proposal(OpFSMUpdateXAttr, inode, map[key := Some(value)]), outcome)
    {
      if inode in extendTree {
        var rec := extendTree[inode];
        if key in rec {
          var newValue := SumTriple(rec[key], value);
          err := PutExtend(OpFSMUpdateXAttr, inode, map[key := Some(newValue)], outcome);
        } else {
          rec := rec[key := value];
          extendTree := extendTree[inode := rec];
          err := PutExtend(OpFSMUpdateXAttr, inode, AsImage(rec), outcome);
        }
      } else {
        err := PutExtend(OpFSMUpdateXAttr, inode, map[key := Some(value)], outcome);
      }
    }

    /**
     * AppendXAttr: key by key, append to (or put into) the record and propose
     * the whole record, stopping at the first proposal that fails. With a
     * record in the tree the record is changed in place, so every key up to
     * and including the failing one stays changed; without one a fresh record
     * is built and the tree is left alone. The reply lists each requested
     * attribute with the value it now has.
     */
    method AppendXAttr(inode: Ino, keys: seq<string>, values: seq<string>, outcomes: seq<Outcome>)
      returns (reply: Reply<map<string, string>>)
      requires |keys| <= |values|
      requires |outcomes| == |keys|
      modifies this`extendTree, this`log
      ensures inode in old(extendTree) ==>
        var end := AppendResult(inode, old(extendTree)[inode], keys, values, outcomes, true, old(log));
        reply == end.reply && extendTree == old(extendTree)[inode := end.rec] && log == end.log
      ensures inode !in old(extendTree) ==>
        var end := AppendResult(inode, map[], keys, values, outcomes, false, old(log));
        reply == end.reply && extendTree == old(extendTree) && log == end.log
    {
      if inode in extendTree {
        AppendRunStart(inode, extendTree[inode], keys, values, outcomes, true, log);
        reply := AppendInPlace(inode, keys, values, outcomes);
      } else {
        AppendRunStart(inode, map[], keys, values, outcomes, false, log);
        reply := AppendFresh(inode, keys, values, outcomes);
      }
    }

    /** AppendXAttr for an inode with a record: the record in the tree is changed key by key. */
    method AppendInPlace(inode: Ino, keys: seq<string>, values: seq<string>, outcomes: seq<Outcome>)
      returns (reply: Reply<map<string, string>>)
      requires |keys| <= |values| && |outcomes| == |keys|
      requires inode in extendTree
      modifies this`extendTree, this`log
      ensures var end := AppendRun(inode, keys, values, outcomes, true, 0, old(extendTree)[inode], map[], old(log));
        reply == end.reply && extendTree == old(extendTree)[inode := end.rec] && log == end.log
    {
      var rec := extendTree[inode];
      assert extendTree == old(extendTree)[inode := rec];
      var response: map<string, string> := map[];
      var i := 0;
      while i < |keys|
        invariant 0 <= i <= |keys|
        invariant extendTree == old(extendTree)[inode := rec]
        invariant AppendRun(inode, keys, values, outcomes, true, i, rec, response, log)
               == AppendRun(inode, keys, values, outcomes, true, 0, old(extendTree)[inode], map[], old(log))
      {
        var newValue, err := AppendOne(inode, keys[i], values[i], outcomes[i]);
        rec := extendTree[inode];
        response := response[keys[i] := newValue];
        if err.Some? {
          reply := Failed(err.value);
          return;
        }
        i := i + 1;
      }
      reply := Ok(response);
    }

    /** One key of AppendXAttr on a record in the tree: append (or put) in place, then propose the whole record. */
    method AppendOne(inode: Ino, key: string, value: string, outcome: Outcome) returns (newValue: string, err: Option<ExtError>)
      requires inode in extendTree
      modifies this`extendTree, this`log
      ensures extendTree == old(extendTree)[inode := Step(old(extendTree)[inode], key, value, true)]
      ensures newValue == extendTree[inode][key]
      ensures err == PutErr(outcome)
      ensures log == Commit(old(log), Proposal(OpFSMUpdateXAttr, inode, AsImage(extendTree[inode])), outcome)
    {
      var extend := extendTree[inode];
      if key in extend {
        newValue := extend[key] + value;
      } else {
        newValue := value;
      }
      extend := extend[key := newValue];
      extendTree := extendTree[inode := extend];
      err := PutExtend(OpFSMUpdateXAttr, inode, AsImage(extend), outcome);
    }

    /** AppendXAttr for an inode without a record: a fresh record is built and proposed key by key. */
    method AppendFresh(inode: Ino, keys: seq<string>, values: seq<string>, outcomes: seq<Outcome>)
      returns (reply: Reply<map<string, string>>)
      requires |keys| <= |values| && |outcomes| == |keys|
      modifies this`log
      ensures var end := AppendRun(inode, keys, values, outcomes, false, 0, map[], map[], old(log));
        reply == end.reply && log == end.log
    {
      var extend: Record := map[];
      var response: map<string, string> := map[];
      var i := 0;
      while i < |keys|
        invariant 0 <= i <= |keys|
        invariant AppendRun(inode, keys, values, outcomes, false, i, extend, response, log)
               == AppendRun(inode, keys, values, outcomes, false, 0, map[], map[], old(log))
      {
        extend := extend[keys[i] := values[i]];
        response := response[keys[i] := values[i]];
        var err := PutExtend(OpFSMUpdateXAttr, inode, AsImage(extend), outcomes[i]);
        if err.Some? {
          reply := Failed(err.value);
          return;
        }
        i := i + 1;
      }
      reply := Ok(response);
    }

    /** SetXAttr: propose exactly {key: value} under opFSMSetXAttr; the tree is not touched. */
    method SetXAttr(inode: Ino, key: string, value: string, outcome: Outcome) returns (err: Option<ExtError>)
      modifies this`log
      ensures err == PutErr(outcome)
      ensures log == Commit(old(log), Proposal(OpFSMSetXAttr, inode, map[key := Some(value)]), outcome)
    {
      err := PutExtend(OpFSMSetXAttr, inode, map[key := Some(value)], outcome);
    }

    /** BatchSetXAttr: copy every pair of the request into one image and propose it once. */
    method BatchSetXAttr(inode: Ino, attrs: map<string, string>, outcome: Outcome) returns (err: Option<ExtError>)
      modifies this`log
      ensures err == PutErr(outcome)
      ensures log == Commit(old(log), Proposal(OpFSMSetXAttr, inode, AsImage(attrs)), outcome)
    {
      var image: Image := map[];
      var rest := attrs.Keys;
      while rest != {}
        invariant rest <= attrs.Keys
        invariant image.Keys == attrs.Keys - rest
        invariant forall k :: k in image ==> image[k] == Some(attrs[k])
        decreases rest
      {
        var key :| key in rest;
        image := image[key := Some(attrs[key])];
        rest := rest - {key};
      }
      assert image == AsImage(attrs);
      err := PutExtend(OpFSMSetXAttr, inode, image, outcome);
    }

    /** RemoveXAttr: propose {key: nil} under opFSMRemoveXAttr; nothing is deleted here. */
    method RemoveXAttr(inode: Ino, key: string, outcome: Outcome) returns (err: Option<ExtError>)
      modifies this`log
      ensures err == PutErr(outcome)
      ensures log == Commit(old(log), Proposal(OpFSMRemoveXAttr, inode, map[key := None]), outcome)
    {
      err := PutExtend(OpFSMRemoveXAttr, inode, map[key := None], outcome);
    }

    /** GetXAttr: the attribute's bytes, or empty when the inode has no record or the record lacks the key. */
    function GetXAttr(inode: Ino, key: string): (value: string)
      reads this
      ensures inode !in extendTree || key !in extendTree[inode] ==> value == ""
      ensures inode in extendTree && key in extendTree[inode] ==> value == extendTree[inode][key]
    {
      if inode in extendTree then ValueOr(extendTree[inode], key) else ""
    }

    /** GetAllXAttr: a copy of the inode's record, empty when it has none. */
    method GetAllXAttr(inode: Ino) returns (attrs: map<string, string>)
      ensures inode in extendTree ==> attrs == extendTree[inode]
      ensures inode !in extendTree ==> attrs == map[]
    {
      attrs := map[];
      if inode in extendTree {
        var rec := extendTree[inode];
        var rest := rec.Keys;
        while rest != {}
          invariant rest <= rec.Keys
          invariant attrs.Keys == rec.Keys - rest
          invariant forall k :: k in attrs ==> attrs[k] == rec[k]
          decreases rest
        {
          var key :| key in rest;
          attrs := attrs[key := rec[key]];
          rest := rest - {key};
        }
      }
    }

    /**
     * BatchGetXAttr: for each requested inode that has a record, in request
     * order, the requested attributes the record holds.
     */
    method BatchGetXAttr(inodes: seq<Ino>, keys: seq<string>) returns (infos: seq<XAttrInfo>)
      ensures infos == BatchInfos(extendTree, inodes, keys)
    {
      infos := [];
      var i := 0;
      while i < |inodes|
        invariant 0 <= i <= |inodes|
        invariant infos == BatchInfos(extendTree, inodes[..i], keys)
      {
        var inode := inodes[i];
        assert inodes[..i + 1] == inodes[..i] + [inode];
        BatchInfosSnoc(extendTree, inodes[..i], inode, keys);
        if inode in extendTree {
          var xattrs := Pick(extendTree[inode], keys);
          infos := infos + [XAttrInfo(inode, xattrs)];
        }
        i := i + 1;
      }
      assert inodes[..i] == inodes;
    }

    /** The inner loop of BatchGetXAttr: the requested names the record holds, with their bytes. */
    static method Pick(rec: Record, keys: seq<string>) returns (xattrs: map<string, string>)
      ensures xattrs == Requested(rec, keys)
    {
      xattrs := map[];
      var j := 0;
      while j < |keys|
        invariant 0 <= j <= |keys|
        invariant xattrs == Requested(rec, keys[..j])
      {
        assert keys[..j + 1] == keys[..j] + [keys[j]];
        if keys[j] in rec {
          xattrs := xattrs[keys[j] := rec[keys[j]]];
        }
        j := j + 1;
      }
      assert keys[..j] == keys;
    }

    /** ListXAttr: the record's attribute names, each once, in the record's own order. */
    method ListXAttr(inode: Ino) returns (names: seq<string>)
      ensures inode !in extendTree ==> names == []
      ensures inode in extendTree ==> forall k :: k in names <==> k in extendTree[inode]
      ensures forall a, b :: 0 <= a < b < |names| ==> names[a] != names[b]
    {
      names := [];
      if inode in extendTree {
        var rec := extendTree[inode];
        var rest := rec.Keys;
        while rest != {}
          invariant rest <= rec.Keys
          invariant forall k :: k in names <==> k in rec && k !in rest
          invariant forall a, b :: 0 <= a < b < |names| ==> names[a] != names[b]
          decreases rest
        {
          var key :| key in rest;
          names := names + [key];
          rest := rest - {key};
        }
      }
    }

    /**
     * addExtendParentIno: parent 0 is ignored; an inode without a record gets
     * an empty one and no count; otherwise the parent's count goes up by one.
     * Nothing is proposed.
     */
    method AddExtendParentIno(inode: Ino, parent: Ino)
      requires parent != 0 && inode in extendTree ==> codec.decode(ParentText(extendTree[inode], parentKey)).Links?
      modifies this`extendTree
      ensures parent == 0 ==> extendTree == old(extendTree)
      ensures parent != 0 && inode !in old(extendTree) ==> extendTree == old(extendTree)[inode := map[]]
      ensures parent != 0 && inode in old(extendTree) ==>
        extendTree == old(extendTree)[inode := AddParent(old(extendTree)[inode], parentKey, codec, parent)]
    {
      if parent == 0 {
        return;
      }
      if inode !in extendTree {
        extendTree := extendTree[inode := map[]];
      } else {
        var rec := extendTree[inode];
        var data := codec.decode(ParentText(rec, parentKey)).counts;
        data := data[parent := Count(data, parent) + 1];
        rec := rec[parentKey := codec.encode(data)];
        extendTree := extendTree[inode := rec];
      }
    }

    /**
     * delExtendParentIno: parent 0 is ignored; an inode without a record or a
     * parent attribute that does not decode is an error and changes nothing;
     * otherwise the map is rewritten under "parent" with the parent's count
     * decremented or the parent removed. Nothing is proposed.
     */
    method DelExtendParentIno(inode: Ino, parent: Ino) returns (err: Option<ExtError>)
      modifies this`extendTree
      ensures parent == 0 ==> err == None && extendTree == old(extendTree)
      ensures parent != 0 && inode !in old(extendTree) ==> err == Some(ExtendNotFound) && extendTree == old(extendTree)
      ensures parent != 0 && inode in old(extendTree) ==>
        match DelParent(old(extendTree)[inode], parentKey, codec, parent)
        case DecodeFailed => err == Some(LinkDecodeError) && extendTree == old(extendTree)
        case Updated(rec) => err == None && extendTree == old(extendTree)[inode := rec]
    {
      if parent == 0 {
        return None;
      }
      if inode !in extendTree {
        return Some(ExtendNotFound);
      }
      var rec := extendTree[inode];
      match codec.decode(ParentText(rec, parentKey)) {
        case Undecodable =>
          return Some(LinkDecodeError);
        case NullMap =>
          rec := rec[ParentLiteral := codec.nullText];
        case Links(data) =>
          if Count(data, parent) > 1 {
            data := data[parent := data[parent] - 1];
          } else {
            data := data - {parent};
          }
          rec := rec[ParentLiteral := codec.encode(data)];
      }
      extendTree := extendTree[inode := rec];
      err := None;
    }
  }
}
