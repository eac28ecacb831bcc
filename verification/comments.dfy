/**
 * Comment attachment (src/comment-handler.ts: CommentHandler).
 *
 * The parser reports every comment as it is scanned and every node as it is
 * finished (children before parents). The handler keeps a stack of finished
 * nodes and two pending lists of comment entries, and hands comments to nodes
 * as leading, trailing or inner comments. Nodes are identified by a caller-
 * chosen id; the comment fields the source writes onto node objects are maps
 * from node id here.
 */
module Comments {
  import opened Wrappers

  /**
   * What the handler reads of a finished node: whether it is a Program or a
   * BlockStatement, and then the length of its body.
   */
  datatype NodeShape = ProgramNode(bodyLength: nat) | BlockNode(bodyLength: nat) | OtherNode

  datatype CommentKind = Line | Block

  datatype Range = Range(start: int, end: int)

  datatype Comment = Comment(kind: CommentKind, value: string, range: Option<Range>)

  /** A pending comment; `serial` is its position in the flat comment list. */
  datatype Entry = Entry(comment: Comment, start: int, serial: nat)

  datatype NodeInfo = NodeInfo(id: nat, start: int)

  /** A comment field of the nodes: node id -> comments, absent when the field is unset. */
  type Attached = map<nat, seq<Comment>>

  datatype Handler = Handler(
    attach: bool,
    comments: seq<Comment>,
    stack: seq<NodeInfo>,
    leading: seq<Entry>,
    trailing: seq<Entry>,
    leadingOf: Attached,
    trailingOf: Attached,
    innerOf: Attached)

  function Init(attach: bool): Handler {
    Handler(attach, [], [], [], [], map[], map[], map[])
  }

  datatype Event =
    | CommentEvent(kind: CommentKind, value: string, range: Option<Range>, start: int, end: int)
    | NodeEvent(node: NodeShape, id: nat, start: int, end: int)

  // ---------------------------------------------------------------------------
  // Order-preserving selections over entry lists.

  /** Entries starting at or before pos. */
  function Upto(es: seq<Entry>, pos: int): (r: seq<Entry>)
    ensures |r| <= |es|
  {
    if |es| == 0 then []
    else Upto(es[..|es| - 1], pos) + (if es[|es| - 1].start <= pos then [es[|es| - 1]] else [])
  }

  /** Entries starting after pos. */
  function Beyond(es: seq<Entry>, pos: int): (r: seq<Entry>)
    ensures |r| <= |es|
  {
    if |es| == 0 then []
    else Beyond(es[..|es| - 1], pos) + (if es[|es| - 1].start > pos then [es[|es| - 1]] else [])
  }

  /** Entries starting at or after pos. */
  function From(es: seq<Entry>, pos: int): (r: seq<Entry>)
    ensures |r| <= |es|
  {
    if |es| == 0 then []
    else From(es[..|es| - 1], pos) + (if es[|es| - 1].start >= pos then [es[|es| - 1]] else [])
  }

  /** Entries not listed in xs. */
  function FilterOut(es: seq<Entry>, xs: seq<Entry>): (r: seq<Entry>)
    ensures |r| <= |es|
  {
    if |es| == 0 then []
    else FilterOut(es[..|es| - 1], xs) + (if es[|es| - 1] !in xs then [es[|es| - 1]] else [])
  }

  function CommentsOf(es: seq<Entry>): (cs: seq<Comment>)
    ensures |cs| == |es|
    ensures forall i :: 0 <= i < |es| ==> cs[i] == es[i].comment
  {
    if |es| == 0 then [] else CommentsOf(es[..|es| - 1]) + [es[|es| - 1].comment]
  }

  lemma {:induction false} UptoMembers(es: seq<Entry>, pos: int)
    ensures forall x :: x in Upto(es, pos) <==> x in es && x.start <= pos
  {
    if |es| > 0 {
      UptoMembers(es[..|es| - 1], pos);
      assert es == es[..|es| - 1] + [es[|es| - 1]];
    }
  }

  lemma {:induction false} BeyondMembers(es: seq<Entry>, pos: int)
    ensures forall x :: x in Beyond(es, pos) <==> x in es && x.start > pos
  {
    if |es| > 0 {
      BeyondMembers(es[..|es| - 1], pos);
      assert es == es[..|es| - 1] + [es[|es| - 1]];
    }
  }

  lemma {:induction false} FromMembers(es: seq<Entry>, pos: int)
    ensures forall x :: x in From(es, pos) <==> x in es && x.start >= pos
  {
    if |es| > 0 {
      FromMembers(es[..|es| - 1], pos);
      assert es == es[..|es| - 1] + [es[|es| - 1]];
    }
  }

  lemma {:induction false} FilterOutMembers(es: seq<Entry>, xs: seq<Entry>)
    ensures forall x :: x in FilterOut(es, xs) <==> x in es && x !in xs
  {
    if |es| > 0 {
      FilterOutMembers(es[..|es| - 1], xs);
      assert es == es[..|es| - 1] + [es[|es| - 1]];
    }
  }

  /** A claim splits the pending list without losing or duplicating an entry. */
  lemma {:induction false} UptoBeyondPartition(es: seq<Entry>, pos: int)
    ensures multiset(Upto(es, pos)) + multiset(Beyond(es, pos)) == multiset(es)
  {
    if |es| > 0 {
      UptoBeyondPartition(es[..|es| - 1], pos);
      UptoBeyondStep(es, pos);
    }
  }

  lemma UptoBeyondStep(es: seq<Entry>, pos: int)
    requires |es| > 0
    requires var init := es[..|es| - 1];
             multiset(Upto(init, pos)) + multiset(Beyond(init, pos)) == multiset(init)
    ensures multiset(Upto(es, pos)) + multiset(Beyond(es, pos)) == multiset(es)
  {
    assert es == es[..|es| - 1] + [es[|es| - 1]];
  }

  /** Array.prototype.splice(i, 1): remove index i, or nothing when i is out of range. */
  function Splice<T>(s: seq<T>, i: nat): (r: seq<T>)
    ensures i < |s| ==> r == s[..i] + s[i + 1..]
    ensures i >= |s| ==> r == s
  {
    if i < |s| then s[..i] + s[i + 1..] else s
  }

  // ---------------------------------------------------------------------------
  // Inner comments of an empty block.

  datatype SpliceMode = AsWritten | Corrected

  datatype InnerScan = InnerScan(inner: seq<Comment>, leading: seq<Entry>, trailing: seq<Entry>)

  /**
   * The downward loop over the pending-leading list: every entry that starts
   * at or before the block's end offset becomes an inner comment and leaves the
   * leading list. As written, the source then removes the same INDEX from the
   * trailing list, although the two lists are not aligned by index; the
   * corrected mode removes the same ENTRY.
   */
  function InnerLoop(mode: SpliceMode, leading: seq<Entry>, trailing: seq<Entry>, end: int, i: nat): InnerScan
    requires i <= |leading|
    decreases i
  {
    if i == 0 then InnerScan([], leading, trailing)
    else
      var e := leading[i - 1];
      if end >= e.start then
        var t := if mode == AsWritten then Splice(trailing, i - 1) else FilterOut(trailing, [e]);
        var r := InnerLoop(mode, Splice(leading, i - 1), t, end, i - 1);
        r.(inner := r.inner + [e.comment])
      else InnerLoop(mode, leading, trailing, end, i - 1)
  }

  lemma {:induction false} FilterOutTwice(es: seq<Entry>, xs: seq<Entry>, ys: seq<Entry>)
    ensures FilterOut(FilterOut(es, xs), ys) == FilterOut(es, ys + xs)
  {
    if |es| > 0 {
      var init := es[..|es| - 1];
      FilterOutTwice(init, xs, ys);
      var inner := FilterOut(es, xs);
      if es[|es| - 1] !in xs {
        assert inner[..|inner| - 1] == FilterOut(init, xs);
      } else {
        assert inner == FilterOut(init, xs);
      }
    }
  }

  lemma {:induction false} FilterOutNothing(es: seq<Entry>)
    ensures FilterOut(es, []) == es
  {
    if |es| > 0 {
      FilterOutNothing(es[..|es| - 1]);
    }
  }

  /** Extending a prefix by one entry extends its selections by that entry or by nothing. */
  lemma SelectStep(es: seq<Entry>, i: nat, pos: int)
    requires 0 < i <= |es|
    ensures Upto(es[..i], pos) == Upto(es[..i - 1], pos) + (if es[i - 1].start <= pos then [es[i - 1]] else [])
    ensures Beyond(es[..i], pos) == Beyond(es[..i - 1], pos) + (if es[i - 1].start > pos then [es[i - 1]] else [])
  {
    assert es[..i][..i - 1] == es[..i - 1];
  }

  lemma CommentsOfSnoc(es: seq<Entry>, e: Entry)
    ensures CommentsOf(es + [e]) == CommentsOf(es) + [e.comment]
  {
    assert (es + [e])[..|es|] == es;
  }

  /** One claimed entry: the loop continues on the shortened lists and appends its comment. */
  lemma InnerLoopClaimStep(mode: SpliceMode, leading: seq<Entry>, trailing: seq<Entry>, end: int, i: nat)
    requires 0 < i <= |leading| && end >= leading[i - 1].start
    ensures var e := leading[i - 1];
            var t := if mode == AsWritten then Splice(trailing, i - 1) else FilterOut(trailing, [e]);
            var r := InnerLoop(mode, Splice(leading, i - 1), t, end, i - 1);
            InnerLoop(mode, leading, trailing, end, i) == r.(inner := r.inner + [e.comment])
  {
  }

  /** Removing index k leaves the entries before k in place and shifts the rest down. */
  lemma SpliceSlices(es: seq<Entry>, k: nat)
    requires k < |es|
    ensures |Splice(es, k)| == |es| - 1
    ensures Splice(es, k)[..k] == es[..k] && Splice(es, k)[k..] == es[k + 1..]
  {
  }

  /**
   * What the loop computes over the first i entries: the inner comments are
   * the claimed entries in their original order ...
   */
  lemma {:induction false} InnerLoopClaims(mode: SpliceMode, leading: seq<Entry>, trailing: seq<Entry>, end: int, i: nat)
    requires i <= |leading|
    ensures InnerLoop(mode, leading, trailing, end, i).inner == CommentsOf(Upto(leading[..i], end))
    decreases i
  {
    if i > 0 {
      var e := leading[i - 1];
      if end >= e.start {
        var t := if mode == AsWritten then Splice(trailing, i - 1) else FilterOut(trailing, [e]);
        InnerLoopClaims(mode, Splice(leading, i - 1), t, end, i - 1);
        ClaimedStepInner(mode, leading, trailing, end, i);
      } else {
        InnerLoopClaims(mode, leading, trailing, end, i - 1);
        KeptStepInner(mode, leading, trailing, end, i);
      }
    }
  }

  lemma ClaimedStepInner(mode: SpliceMode, leading: seq<Entry>, trailing: seq<Entry>, end: int, i: nat)
    requires 0 < i <= |leading| && end >= leading[i - 1].start
    requires var e := leading[i - 1];
             var t := if mode == AsWritten then Splice(trailing, i - 1) else FilterOut(trailing, [e]);
             var l := Splice(leading, i - 1);
             InnerLoop(mode, l, t, end, i - 1).inner == CommentsOf(Upto(l[..i - 1], end))
    ensures InnerLoop(mode, leading, trailing, end, i).inner == CommentsOf(Upto(leading[..i], end))
  {
    var e := leading[i - 1];
    InnerLoopClaimStep(mode, leading, trailing, end, i);
    SelectStep(leading, i, end);
    SpliceSlices(leading, i - 1);
    CommentsOfSnoc(Upto(leading[..i - 1], end), e);
  }

  lemma KeptStepInner(mode: SpliceMode, leading: seq<Entry>, trailing: seq<Entry>, end: int, i: nat)
    requires 0 < i <= |leading| && end < leading[i - 1].start
    requires InnerLoop(mode, leading, trailing, end, i - 1).inner == CommentsOf(Upto(leading[..i - 1], end))
    ensures InnerLoop(mode, leading, trailing, end, i).inner == CommentsOf(Upto(leading[..i], end))
  {
    SelectStep(leading, i, end);
    assert Upto(leading[..i], end) == Upto(leading[..i - 1], end);
  }

  /** ... and the leading list keeps the unclaimed entries, in order. */
  lemma {:induction false} InnerLoopKeeps(mode: SpliceMode, leading: seq<Entry>, trailing: seq<Entry>, end: int, i: nat)
    requires i <= |leading|
    ensures InnerLoop(mode, leading, trailing, end, i).leading == Beyond(leading[..i], end) + leading[i..]
    decreases i
  {
    if i == 0 {
      assert leading[..0] == [] && leading[0..] == leading;
    } else {
      var e := leading[i - 1];
      if end >= e.start {
        var t := if mode == AsWritten then Splice(trailing, i - 1) else FilterOut(trailing, [e]);
        InnerLoopKeeps(mode, Splice(leading, i - 1), t, end, i - 1);
        ClaimedStepLeading(mode, leading, trailing, end, i);
      } else {
        InnerLoopKeeps(mode, leading, trailing, end, i - 1);
        KeptStepLeading(mode, leading, trailing, end, i);
      }
    }
  }

  lemma ClaimedStepLeading(mode: SpliceMode, leading: seq<Entry>, trailing: seq<Entry>, end: int, i: nat)
    requires 0 < i <= |leading| && end >= leading[i - 1].start
    requires var e := leading[i - 1];
             var t := if mode == AsWritten then Splice(trailing, i - 1) else FilterOut(trailing, [e]);
             var l := Splice(leading, i - 1);
             InnerLoop(mode, l, t, end, i - 1).leading == Beyond(l[..i - 1], end) + l[i - 1..]
    ensures InnerLoop(mode, leading, trailing, end, i).leading == Beyond(leading[..i], end) + leading[i..]
  {
    InnerLoopClaimStep(mode, leading, trailing, end, i);
    SelectStep(leading, i, end);
    SpliceSlices(leading, i - 1);
  }

  lemma KeptStepLeading(mode: SpliceMode, leading: seq<Entry>, trailing: seq<Entry>, end: int, i: nat)
    requires 0 < i <= |leading| && end < leading[i - 1].start
    requires InnerLoop(mode, leading, trailing, end, i - 1).leading == Beyond(leading[..i - 1], end) + leading[i - 1..]
    ensures InnerLoop(mode, leading, trailing, end, i).leading == Beyond(leading[..i], end) + leading[i..]
  {
    var e := leading[i - 1];
    SelectStep(leading, i, end);
    var b := Beyond(leading[..i - 1], end);
    assert leading[i - 1..] == [e] + leading[i..];
    assert b + leading[i - 1..] == (b + [e]) + leading[i..];
  }

  /** With the corrected splice the trailing list loses exactly the claimed entries. */
  lemma {:induction false} InnerLoopTrailing(leading: seq<Entry>, trailing: seq<Entry>, end: int, i: nat)
    requires i <= |leading|
    ensures InnerLoop(Corrected, leading, trailing, end, i).trailing == FilterOut(trailing, Upto(leading[..i], end))
    decreases i
  {
    if i == 0 {
      assert leading[..0] == [];
      FilterOutNothing(trailing);
    } else {
      var e := leading[i - 1];
      if end >= e.start {
        InnerLoopTrailing(Splice(leading, i - 1), FilterOut(trailing, [e]), end, i - 1);
        ClaimedStepTrailing(leading, trailing, end, i);
      } else {
        InnerLoopTrailing(leading, trailing, end, i - 1);
        KeptStepTrailing(leading, trailing, end, i);
      }
    }
  }

  lemma KeptStepTrailing(leading: seq<Entry>, trailing: seq<Entry>, end: int, i: nat)
    requires 0 < i <= |leading| && end < leading[i - 1].start
    requires InnerLoop(Corrected, leading, trailing, end, i - 1).trailing == FilterOut(trailing, Upto(leading[..i - 1], end))
    ensures InnerLoop(Corrected, leading, trailing, end, i).trailing == FilterOut(trailing, Upto(leading[..i], end))
  {
    SelectStep(leading, i, end);
    assert Upto(leading[..i], end) == Upto(leading[..i - 1], end);
  }

  lemma ClaimedStepTrailing(leading: seq<Entry>, trailing: seq<Entry>, end: int, i: nat)
    requires 0 < i <= |leading| && end >= leading[i - 1].start
    requires var e := leading[i - 1];
             var l := Splice(leading, i - 1);
             InnerLoop(Corrected, l, FilterOut(trailing, [e]), end, i - 1).trailing
               == FilterOut(FilterOut(trailing, [e]), Upto(l[..i - 1], end))
    ensures InnerLoop(Corrected, leading, trailing, end, i).trailing == FilterOut(trailing, Upto(leading[..i], end))
  {
    var e := leading[i - 1];
    InnerLoopClaimStep(Corrected, leading, trailing, end, i);
    SelectStep(leading, i, end);
    SpliceSlices(leading, i - 1);
    FilterOutTwice(trailing, [e], Upto(leading[..i - 1], end));
  }

  /**
   * The splice as written removes a trailing entry that was not claimed: with
   * `c` (start 2) and `d` (start 13) pending and only `d` trailing, a block
   * ending at 12 claims `c`, and removing index 0 of the trailing list drops `d`.
   */
  lemma AsWrittenSpliceDropsTrailing()
    ensures InnerLoop(AsWritten, [EC, ED], [ED], 12, 2) == InnerScan([C], [ED], [])
  {
    assert Splice([EC, ED], 0) == [ED];
    assert Splice([ED], 0) == [];
    assert InnerLoop(AsWritten, [ED], [], 12, 0) == InnerScan([], [ED], []);
  }

  /** The corrected splice keeps `d`, which the block did not claim. */
  lemma CorrectedSpliceKeepsTrailing()
    ensures InnerLoop(Corrected, [EC, ED], [ED], 12, 2) == InnerScan([C], [ED], [ED])
  {
    assert Splice([EC, ED], 0) == [ED];
    assert FilterOut([ED], [EC]) == [ED] by {
      assert [ED][..0] == [];
    }
    assert InnerLoop(Corrected, [ED], [ED], 12, 0) == InnerScan([], [ED], [ED]);
  }

  /** insertInnerComments: only an empty block takes inner comments, and only a non-empty list is stored. */
  function InsertInnerComments(h: Handler, mode: SpliceMode, node: NodeShape, id: nat, end: int): (g: Handler)
    ensures g.stack == h.stack && g.comments == h.comments && g.attach == h.attach
    ensures g.leadingOf == h.leadingOf && g.trailingOf == h.trailingOf
    ensures !(node.BlockNode? && node.bodyLength == 0) ==> g == h
  {
    if node.BlockNode? && node.bodyLength == 0 then
      var r := InnerLoop(mode, h.leading, h.trailing, end, |h.leading|);
      h.(leading := r.leading, trailing := r.trailing,
         innerOf := if |r.inner| > 0 then h.innerOf[id := r.inner] else h.innerOf)
    else h
  }

  /**
   * For an empty block the inner comments are exactly the pending-leading
   * entries starting at or before its end, in order; they leave the leading
   * list, and (corrected) the trailing list too.
   */
  lemma InsertInnerSpec(h: Handler, mode: SpliceMode, node: NodeShape, id: nat, end: int)
    requires node.BlockNode? && node.bodyLength == 0
    ensures var g := InsertInnerComments(h, mode, node, id, end);
            && g.leading == Beyond(h.leading, end)
            && (|Upto(h.leading, end)| > 0 ==> id in g.innerOf && g.innerOf[id] == CommentsOf(Upto(h.leading, end)))
            && (|Upto(h.leading, end)| == 0 ==> g.innerOf == h.innerOf)
            && (mode == Corrected ==> g.trailing == FilterOut(h.trailing, Upto(h.leading, end)))
  {
    InnerLoopClaims(mode, h.leading, h.trailing, end, |h.leading|);
    InnerLoopKeeps(mode, h.leading, h.trailing, end, |h.leading|);
    if mode == Corrected {
      InnerLoopTrailing(h.leading, h.trailing, end, |h.leading|);
    }
    assert h.leading[..|h.leading|] == h.leading;
    assert h.leading[|h.leading|..] == [];
  }

  // ---------------------------------------------------------------------------
  // Trailing and leading comments.

  datatype Found = Found(h: Handler, found: seq<Comment>)

  /**
   * The stack-top node has trailing comments and the first of them starts at
   * or after `end`.
   */
  predicate CanBorrowTrailing(h: Handler, end: int) {
    && |h.stack| > 0
    && var top := h.stack[|h.stack| - 1].id;
       && top in h.trailingOf && |h.trailingOf[top]| > 0 && h.trailingOf[top][0].range.Some?
       && h.trailingOf[top][0].range.value.start >= end
  }

  /**
   * findTrailingComments. With pending trailing entries, the node's trailing
   * comments are those starting at or after its end, and the trailing list is
   * cleared. Otherwise the node takes over the stack-top node's trailing
   * comments if the first of them starts at or after its end.
   */
  function FindTrailingComments(h: Handler, end: int): (r: Found)
    ensures r.h.trailing == []
    ensures r.h.stack == h.stack && r.h.leading == h.leading && r.h.leadingOf == h.leadingOf
    ensures r.h.innerOf == h.innerOf && r.h.comments == h.comments && r.h.attach == h.attach
    ensures |h.trailing| > 0 ==> r.found == CommentsOf(From(h.trailing, end)) && r.h.trailingOf == h.trailingOf
    ensures |h.trailing| == 0 && CanBorrowTrailing(h, end) ==>
              var top := h.stack[|h.stack| - 1].id;
              r.found == h.trailingOf[top] && |r.found| > 0 && r.h.trailingOf == h.trailingOf - {top}
    ensures |h.trailing| == 0 && !CanBorrowTrailing(h, end) ==> r == Found(h, [])
  {
    if |h.trailing| > 0 then
      Found(h.(trailing := []), CommentsOf(From(h.trailing, end)))
    else if |h.stack| > 0 then
      var top := h.stack[|h.stack| - 1].id;
      if top in h.trailingOf && |h.trailingOf[top]| > 0 && h.trailingOf[top][0].range.Some?
         && h.trailingOf[top][0].range.value.start >= end
      then Found(h.(trailingOf := h.trailingOf - {top}), h.trailingOf[top])
      else Found(h, [])
    else Found(h, [])
  }

  /** The stack left after popping every top entry that starts at or after pos. */
  function PopFrom(stack: seq<NodeInfo>, pos: int): (r: seq<NodeInfo>)
    ensures |r| <= |stack| && r == stack[..|r|]
    ensures forall i :: |r| <= i < |stack| ==> stack[i].start >= pos
    ensures |r| > 0 ==> r[|r| - 1].start < pos
  {
    if |stack| == 0 || stack[|stack| - 1].start < pos then stack
    else PopFrom(stack[..|stack| - 1], pos)
  }

  /** Comments whose range ends at or before pos, and the others. */
  function EndingBy(cs: seq<Comment>, pos: int): (r: seq<Comment>)
    ensures |r| <= |cs|
  {
    if |cs| == 0 then []
    else
      var c := cs[|cs| - 1];
      EndingBy(cs[..|cs| - 1], pos) + (if c.range.Some? && c.range.value.end <= pos then [c] else [])
  }

  function NotEndingBy(cs: seq<Comment>, pos: int): (r: seq<Comment>)
    ensures |r| <= |cs|
  {
    if |cs| == 0 then []
    else
      var c := cs[|cs| - 1];
      NotEndingBy(cs[..|cs| - 1], pos) + (if c.range.Some? && c.range.value.end <= pos then [] else [c])
  }

  /**
   * Moving a target's leading comments to the node neither loses nor
   * duplicates one: the moved and the kept comments together are the
   * target's former list ...
   */
  lemma {:induction false} EndingByPartition(cs: seq<Comment>, pos: int)
    ensures multiset(EndingBy(cs, pos)) + multiset(NotEndingBy(cs, pos)) == multiset(cs)
  {
    if |cs| > 0 {
      EndingByPartition(cs[..|cs| - 1], pos);
      PartitionStep(cs, pos);
    }
  }

  lemma PartitionStep(cs: seq<Comment>, pos: int)
    requires |cs| > 0
    requires var init := cs[..|cs| - 1];
             multiset(EndingBy(init, pos)) + multiset(NotEndingBy(init, pos)) == multiset(init)
    ensures multiset(EndingBy(cs, pos)) + multiset(NotEndingBy(cs, pos)) == multiset(cs)
  {
    assert cs == cs[..|cs| - 1] + [cs[|cs| - 1]];
  }

  /** ... and the moved ones are exactly those that end at or before pos. */
  lemma {:induction false} EndingByMembers(cs: seq<Comment>, pos: int)
    ensures forall c :: c in EndingBy(cs, pos) ==> c.range.Some? && c.range.value.end <= pos
    ensures forall c :: c in NotEndingBy(cs, pos) ==> !(c.range.Some? && c.range.value.end <= pos)
  {
    if |cs| > 0 {
      EndingByMembers(cs[..|cs| - 1], pos);
    }
  }

  /**
   * findLeadingComments. Pop every stack entry starting at or after the node's
   * start; the last one popped is the target. With a target, the node claims
   * the target's leading comments that end at or before its start (the target
   * keeps the rest, and loses the field when none remain). Without one, it
   * claims every pending-leading entry starting at or before its start.
   */
  function FindLeadingComments(h: Handler, start: int): (r: Found)
    ensures r.h.stack == PopFrom(h.stack, start)
    ensures r.h.trailing == h.trailing && r.h.trailingOf == h.trailingOf && r.h.innerOf == h.innerOf
    ensures r.h.comments == h.comments && r.h.attach == h.attach
    ensures |PopFrom(h.stack, start)| == |h.stack| ==>
              r.found == CommentsOf(Upto(h.leading, start)) && r.h.leading == Beyond(h.leading, start)
              && r.h.leadingOf == h.leadingOf
    ensures |PopFrom(h.stack, start)| < |h.stack| ==>
              var target := h.stack[|PopFrom(h.stack, start)|].id;
              && r.h.leading == h.leading
              && (target !in h.leadingOf ==> r.found == [] && r.h.leadingOf == h.leadingOf)
              && (target in h.leadingOf ==>
                    var keep := NotEndingBy(h.leadingOf[target], start);
                    && r.found == EndingBy(h.leadingOf[target], start)
                    && (|keep| == 0 ==> r.h.leadingOf == h.leadingOf - {target})
                    && (|keep| > 0 ==> r.h.leadingOf == h.leadingOf[target := keep]))
  {
    var rest := PopFrom(h.stack, start);
    if |rest| < |h.stack| then
      var target := h.stack[|rest|].id;
      if target in h.leadingOf then
        var own := h.leadingOf[target];
        var keep := NotEndingBy(own, start);
        Found(h.(stack := rest, leadingOf := if |keep| == 0 then h.leadingOf - {target} else h.leadingOf[target := keep]),
              EndingBy(own, start))
      else Found(h.(stack := rest), [])
    else
      Found(h.(stack := rest, leading := Beyond(h.leading, start)), CommentsOf(Upto(h.leading, start)))
  }

  // ---------------------------------------------------------------------------
  // Visiting.

  /**
   * visitNode. A program with statements is skipped. Otherwise: inner
   * comments, then trailing, then leading (each field set only when
   * non-empty), and the node goes on the stack with its start offset.
   */
  function VisitNode(h: Handler, mode: SpliceMode, node: NodeShape, id: nat, start: int, end: int): (g: Handler)
    ensures node.ProgramNode? && node.bodyLength > 0 ==> g == h
    ensures !(node.ProgramNode? && node.bodyLength > 0) ==>
              && |g.stack| > 0 && g.stack[|g.stack| - 1] == NodeInfo(id, start)
              && g.stack[..|g.stack| - 1] == PopFrom(h.stack, start)
              && g.trailing == []
    ensures !(node.ProgramNode? && node.bodyLength > 0) ==>
              var t := FindTrailingComments(InsertInnerComments(h, mode, node, id, end), end);
              var l := FindLeadingComments(t.h, start);
              && g.leading == l.h.leading && g.innerOf == l.h.innerOf
              && (|l.found| > 0 ==> id in g.leadingOf && g.leadingOf[id] == l.found)
              && (|l.found| == 0 ==> g.leadingOf == l.h.leadingOf)
              && (forall k :: k != id ==> (k in g.leadingOf <==> k in l.h.leadingOf))
              && (forall k :: k != id && k in l.h.leadingOf ==> g.leadingOf[k] == l.h.leadingOf[k])
              && (|t.found| > 0 ==> id in g.trailingOf && g.trailingOf[id] == t.found)
              && (|t.found| == 0 ==> g.trailingOf == l.h.trailingOf)
              && (forall k :: k != id ==> (k in g.trailingOf <==> k in l.h.trailingOf))
              && (forall k :: k != id && k in l.h.trailingOf ==> g.trailingOf[k] == l.h.trailingOf[k])
    ensures g.comments == h.comments && g.attach == h.attach
  {
    if node.ProgramNode? && node.bodyLength > 0 then h
    else
      var h1 := InsertInnerComments(h, mode, node, id, end);
      var t := FindTrailingComments(h1, end);
      var l := FindLeadingComments(t.h, start);
      l.h.(leadingOf := SetField(l.h.leadingOf, id, l.found),
           trailingOf := SetField(l.h.trailingOf, id, t.found),
           stack := l.h.stack + [NodeInfo(id, start)])
  }

  /** A node's comment field is written only with a non-empty list; no other node's field changes. */
  function SetField(m: Attached, id: nat, found: seq<Comment>): (m': Attached)
    ensures |found| > 0 ==> id in m' && m'[id] == found
    ensures |found| == 0 ==> m' == m
    ensures forall k :: k != id ==> (k in m' <==> k in m)
    ensures forall k :: k != id && k in m ==> m'[k] == m[k]
  {
    if |found| > 0 then m[id := found] else m
  }

  /**
   * visitComment: the comment always joins the flat list; when attaching, an
   * entry with the comment's offsets joins both pending lists.
   */
  function VisitComment(h: Handler, kind: CommentKind, value: string, range: Option<Range>, start: int, end: int): (g: Handler)
    ensures g.comments == h.comments + [Comment(kind, value, range)]
    ensures g.stack == h.stack && g.attach == h.attach
    ensures g.leadingOf == h.leadingOf && g.trailingOf == h.trailingOf && g.innerOf == h.innerOf
    ensures h.attach ==>
              var e := Entry(Comment(kind, value, Some(Range(start, end))), start, |h.comments|);
              g.leading == h.leading + [e] && g.trailing == h.trailing + [e]
    ensures !h.attach ==> g.leading == h.leading && g.trailing == h.trailing
  {
    var g := h.(comments := h.comments + [Comment(kind, value, range)]);
    if h.attach then
      var e := Entry(Comment(kind, value, Some(Range(start, end))), start, |h.comments|);
      g.(leading := g.leading + [e], trailing := g.trailing + [e])
    else g
  }

  /**
   * visit: a comment is always recorded in the flat list, and only a comment
   * adds to it; without attaching, nothing else changes.
   */
  function Visit(h: Handler, mode: SpliceMode, ev: Event): (g: Handler)
    ensures g.attach == h.attach
    ensures ev.CommentEvent? ==> g.comments == h.comments + [Comment(ev.kind, ev.value, ev.range)]
    ensures ev.NodeEvent? ==> g.comments == h.comments
    ensures !h.attach ==> g == h.(comments := g.comments)
  {
    match ev
    case CommentEvent(kind, value, range, start, end) => VisitComment(h, kind, value, range, start, end)
    case NodeEvent(node, id, start, end) => if h.attach then VisitNode(h, mode, node, id, start, end) else h
  }

  /** The handler after visiting the events in order: the flat list only grows, and attaching stays as set. */
  function Run(h: Handler, mode: SpliceMode, events: seq<Event>): (g: Handler)
    ensures g.attach == h.attach
    ensures h.comments <= g.comments
    ensures |g.comments| - |h.comments| <= |events|
  {
    if |events| == 0 then h else Visit(Run(h, mode, events[..|events| - 1]), mode, events[|events| - 1])
  }

  // ---------------------------------------------------------------------------
  // Properties of runs.

  /** The comment records of an event stream, in order. */
  function CommentRecords(events: seq<Event>): seq<Comment> {
    if |events| == 0 then []
    else
      var ev := events[|events| - 1];
      CommentRecords(events[..|events| - 1])
      + (if ev.CommentEvent? then [Comment(ev.kind, ev.value, ev.range)] else [])
  }

  /** Every comment event appends exactly one record to the flat list, attached or not. */
  lemma {:induction false} RunRecordsEveryComment(h: Handler, mode: SpliceMode, events: seq<Event>)
    ensures Run(h, mode, events).comments == h.comments + CommentRecords(events)
    ensures Run(h, mode, events).attach == h.attach
  {
    if |events| > 0 {
      RunRecordsEveryComment(h, mode, events[..|events| - 1]);
    }
  }

  /** With attach off, only the flat list changes. */
  lemma {:induction false} DetachedRunOnlyRecords(h: Handler, mode: SpliceMode, events: seq<Event>)
    requires !h.attach
    ensures Run(h, mode, events) == h.(comments := h.comments + CommentRecords(events))
  {
    if |events| > 0 {
      DetachedRunOnlyRecords(h, mode, events[..|events| - 1]);
    }
  }

  /** Node start offsets strictly increase from the bottom of the stack to the top. */
  predicate StackIncreasing(stack: seq<NodeInfo>) {
    forall i, j :: 0 <= i < j < |stack| ==> stack[i].start < stack[j].start
  }

  /** Popping every entry at or after pos and pushing pos keeps the order. */
  lemma PushAfterPopIncreasing(stack: seq<NodeInfo>, id: nat, pos: int)
    requires StackIncreasing(stack)
    ensures StackIncreasing(PopFrom(stack, pos) + [NodeInfo(id, pos)])
  {
    var rest := PopFrom(stack, pos);
    var s := rest + [NodeInfo(id, pos)];
    forall i, j | 0 <= i < j < |s|
      ensures s[i].start < s[j].start
    {
      if j == |s| - 1 {
        assert s[i] == stack[i];
        if i < |rest| - 1 {
          assert stack[i].start < stack[|rest| - 1].start;
        }
      } else {
        assert s[i] == stack[i] && s[j] == stack[j];
      }
    }
  }

  lemma VisitKeepsStackIncreasing(h: Handler, mode: SpliceMode, ev: Event)
    requires StackIncreasing(h.stack)
    ensures StackIncreasing(Visit(h, mode, ev).stack)
  {
    if ev.NodeEvent? && h.attach && !(ev.node.ProgramNode? && ev.node.bodyLength > 0) {
      var g := VisitNode(h, mode, ev.node, ev.id, ev.start, ev.end);
      assert g.stack == g.stack[..|g.stack| - 1] + [g.stack[|g.stack| - 1]];
      PushAfterPopIncreasing(h.stack, ev.id, ev.start);
    }
  }

  lemma {:induction false} RunKeepsStackIncreasing(h: Handler, mode: SpliceMode, events: seq<Event>)
    requires StackIncreasing(h.stack)
    ensures StackIncreasing(Run(h, mode, events).stack)
  {
    if |events| > 0 {
      RunKeepsStackIncreasing(h, mode, events[..|events| - 1]);
      VisitKeepsStackIncreasing(Run(h, mode, events[..|events| - 1]), mode, events[|events| - 1]);
    }
  }

  /**
   * Pending trailing entries are exactly the comments scanned since the last
   * node visit: a suffix of the pending-leading list.
   */
  predicate TrailingIsSuffix(h: Handler) {
    |h.trailing| <= |h.leading| && h.trailing == h.leading[|h.leading| - |h.trailing|..]
  }

  /** Removing claimed entries from a suffix leaves the unclaimed part of that suffix. */
  lemma {:induction false} FilterClaimedSuffix(p: seq<Entry>, t: seq<Entry>, end: int)
    ensures FilterOut(t, Upto(p + t, end)) == Beyond(t, end)
  {
    if |t| > 0 {
      var init, last := t[..|t| - 1], t[|t| - 1];
      assert t == init + [last];
      FilterClaimedSuffix(p, init, end);
      UptoMembers(p + t, end);
      UptoMembers(p + init, end);
      assert last in p + t;
      forall x | x in init
        ensures x in p + init && x in p + t
      {
      }
      FilterOutSameOn(init, Upto(p + t, end), Upto(p + init, end));
    }
  }

  /** Filtering depends only on which of the list's own entries are excluded. */
  lemma {:induction false} FilterOutSameOn(es: seq<Entry>, xs: seq<Entry>, ys: seq<Entry>)
    requires forall x :: x in es ==> (x in xs <==> x in ys)
    ensures FilterOut(es, xs) == FilterOut(es, ys)
  {
    if |es| > 0 {
      FilterOutSameOn(es[..|es| - 1], xs, ys);
    }
  }

  lemma {:induction false} BeyondAppend(a: seq<Entry>, b: seq<Entry>, pos: int)
    ensures Beyond(a + b, pos) == Beyond(a, pos) + Beyond(b, pos)
  {
    if |b| == 0 {
      assert a + b == a;
    } else {
      assert (a + b)[..|a + b| - 1] == a + b[..|b| - 1];
      BeyondAppend(a, b[..|b| - 1], pos);
    }
  }

  /**
   * With the corrected splice every step keeps the trailing list a suffix of
   * the leading one, so a comment scanned after a node is never dropped from
   * the trailing list by an unrelated inner-comment claim.
   */
  lemma {:induction false} VisitKeepsTrailingSuffix(h: Handler, ev: Event)
    requires TrailingIsSuffix(h)
    ensures TrailingIsSuffix(Visit(h, Corrected, ev))
  {
    if ev.CommentEvent? && h.attach {
      var g := Visit(h, Corrected, ev);
      assert g.leading[|g.leading| - |g.trailing|..] == h.leading[|h.leading| - |h.trailing|..] + [g.leading[|g.leading| - 1]];
    }
  }

  /** The corrected inner-comment claim keeps the suffix relation. */
  lemma InsertInnerKeepsSuffix(h: Handler, node: NodeShape, id: nat, end: int)
    requires TrailingIsSuffix(h)
    ensures TrailingIsSuffix(InsertInnerComments(h, Corrected, node, id, end))
  {
    if node.BlockNode? && node.bodyLength == 0 {
      var p := h.leading[..|h.leading| - |h.trailing|];
      assert h.leading == p + h.trailing;
      InsertInnerSpec(h, Corrected, node, id, end);
      FilterClaimedSuffix(p, h.trailing, end);
      BeyondAppend(p, h.trailing, end);
      var g := InsertInnerComments(h, Corrected, node, id, end);
      assert g.leading == Beyond(p, end) + Beyond(h.trailing, end);
      assert g.trailing == Beyond(h.trailing, end);
      assert g.leading[|g.leading| - |g.trailing|..] == g.trailing;
    }
  }

  lemma {:induction false} RunKeepsTrailingSuffix(h: Handler, events: seq<Event>)
    requires TrailingIsSuffix(h)
    ensures TrailingIsSuffix(Run(h, Corrected, events))
  {
    if |events| > 0 {
      RunKeepsTrailingSuffix(h, events[..|events| - 1]);
      VisitKeepsTrailingSuffix(Run(h, Corrected, events[..|events| - 1]), events[|events| - 1]);
    }
  }

  // ---------------------------------------------------------------------------
  // Worked streams.

  /** Visiting is sequential: one more event is one more visit. */
  lemma RunSnoc(h: Handler, mode: SpliceMode, events: seq<Event>, ev: Event)
    ensures Run(h, mode, events + [ev]) == Visit(Run(h, mode, events), mode, ev)
  {
    assert (events + [ev])[..|events|] == events;
  }

  /** Running a three-event stream is visiting its events in order. */
  lemma RunThree(h: Handler, mode: SpliceMode, e1: Event, e2: Event, e3: Event)
    ensures Run(h, mode, [e1, e2, e3]) == Visit(Visit(Visit(h, mode, e1), mode, e2), mode, e3)
  {
    RunSnoc(h, mode, [], e1);
    RunSnoc(h, mode, [e1], e2);
    RunSnoc(h, mode, [e1, e2], e3);
    assert [] + [e1] == [e1] && [e1] + [e2] == [e1, e2] && [e1, e2] + [e3] == [e1, e2, e3];
  }

  /** Running a six-event stream is running its first three and visiting the rest. */
  lemma RunSix(h: Handler, mode: SpliceMode, e1: Event, e2: Event, e3: Event, e4: Event, e5: Event, e6: Event)
    ensures Run(h, mode, [e1, e2, e3, e4, e5, e6])
         == Visit(Visit(Visit(Run(h, mode, [e1, e2, e3]), mode, e4), mode, e5), mode, e6)
  {
    RunSnoc(h, mode, [e1, e2, e3], e4);
    RunSnoc(h, mode, [e1, e2, e3, e4], e5);
    RunSnoc(h, mode, [e1, e2, e3, e4, e5], e6);
    assert [e1, e2, e3] + [e4] == [e1, e2, e3, e4];
    assert [e1, e2, e3, e4] + [e5] == [e1, e2, e3, e4, e5];
    assert [e1, e2, e3, e4, e5] + [e6] == [e1, e2, e3, e4, e5, e6];
  }

  const C := Comment(Block, "c", Some(Range(2, 7)))
  const D := Comment(Block, "d", Some(Range(13, 18)))
  const EC := Entry(C, 2, 0)
  const ED := Entry(D, 13, 1)

  /**
   * `a <comment c> + b`: the comment is scanned before `a` is finished, becomes a
   * trailing comment of `a`, stays pending as a leading entry, and is then
   * claimed as a leading comment of `b` as well.
   */
  lemma CommentBothTrailingAndLeading(mode: SpliceMode)
    ensures var events := [
              CommentEvent(Block, "c", Some(Range(2, 7)), 2, 7),
              NodeEvent(OtherNode, 0, 0, 1),
              NodeEvent(OtherNode, 1, 10, 11)];
            var h := Run(Init(true), mode, events);
            h.trailingOf == map[0 := [C]] && h.leadingOf == map[1 := [C]]
  {
    var e1, e2, e3 := CommentEvent(Block, "c", Some(Range(2, 7)), 2, 7), NodeEvent(OtherNode, 0, 0, 1), NodeEvent(OtherNode, 1, 10, 11);
    RunThree(Init(true), mode, e1, e2, e3);
    var h1 := BothComment(mode);
    var h2 := BothFirstNode(mode, h1);
    BothSecondNode(mode, h2);
  }

  lemma BothComment(mode: SpliceMode) returns (h1: Handler)
    ensures h1 == Visit(Init(true), mode, CommentEvent(Block, "c", Some(Range(2, 7)), 2, 7))
    ensures h1 == Handler(true, [C], [], [EC], [EC], map[], map[], map[])
  {
    h1 := VisitComment(Init(true), Block, "c", Some(Range(2, 7)), 2, 7);
  }

  /** The first node: the comment becomes its trailing comment. */
  lemma BothFirstNode(mode: SpliceMode, h1: Handler) returns (h2: Handler)
    requires h1 == Handler(true, [C], [], [EC], [EC], map[], map[], map[])
    ensures h2 == Visit(h1, mode, NodeEvent(OtherNode, 0, 0, 1))
    ensures h2 == Handler(true, [C], [NodeInfo(0, 0)], [EC], [], map[], map[0 := [C]], map[])
  {
    FirstNodeTrailing(h1);
    FirstNodeLeading(h1.(trailing := []));
    h2 := VisitNode(h1, mode, OtherNode, 0, 0, 1);
  }

  lemma FirstNodeTrailing(h1: Handler)
    requires h1 == Handler(true, [C], [], [EC], [EC], map[], map[], map[])
    ensures FindTrailingComments(h1, 1) == Found(h1.(trailing := []), [C])
  {
    assert [EC][..0] == [];
    assert From([EC], 1) == [EC];
  }

  lemma FirstNodeLeading(t: Handler)
    requires t == Handler(true, [C], [], [EC], [], map[], map[], map[])
    ensures FindLeadingComments(t, 0) == Found(t, [])
  {
    assert [EC][..0] == [];
    assert Upto([EC], 0) == [] && Beyond([EC], 0) == [EC];
  }

  /** The second node: the same comment, still pending, becomes its leading comment. */
  lemma BothSecondNode(mode: SpliceMode, h2: Handler)
    requires h2 == Handler(true, [C], [NodeInfo(0, 0)], [EC], [], map[], map[0 := [C]], map[])
    ensures var h3 := Visit(h2, mode, NodeEvent(OtherNode, 1, 10, 11));
            h3.trailingOf == map[0 := [C]] && h3.leadingOf == map[1 := [C]]
  {
    SecondNodeTrailing(h2);
    SecondNodeLeading(h2);
  }

  /** `c` starts before the second node ends, so the node does not take it over as trailing. */
  lemma SecondNodeTrailing(h2: Handler)
    requires h2 == Handler(true, [C], [NodeInfo(0, 0)], [EC], [], map[], map[0 := [C]], map[])
    ensures FindTrailingComments(h2, 11) == Found(h2, [])
  {
  }

  lemma SecondNodeLeading(h2: Handler)
    requires h2 == Handler(true, [C], [NodeInfo(0, 0)], [EC], [], map[], map[0 := [C]], map[])
    ensures FindLeadingComments(h2, 10) == Found(h2.(leading := []), [C])
  {
    assert [EC][..0] == [];
    assert PopFrom(h2.stack, 10) == h2.stack;
    assert Upto([EC], 10) == [EC] && Beyond([EC], 10) == [];
  }

  /**
   * `f(<comment c>); {} <comment d>`: when the empty block is finished, `c` (left
   * over in the leading list) is claimed as an inner comment, and the
   * as-written splice then removes `d` from the trailing list, so `d` is not
   * attached to the block. With the corrected splice `d` becomes the block's
   * trailing comment.
   */
  lemma SpliceLosesTrailingComment()
    ensures var events := [
              NodeEvent(OtherNode, 0, 0, 1),
              CommentEvent(Block, "c", Some(Range(2, 7)), 2, 7),
              NodeEvent(OtherNode, 1, 0, 8),
              NodeEvent(OtherNode, 2, 0, 9),
              CommentEvent(Block, "d", Some(Range(13, 18)), 13, 18),
              NodeEvent(BlockNode(0), 3, 10, 12)];
            && 3 !in Run(Init(true), AsWritten, events).trailingOf
            && Run(Init(true), Corrected, events).trailingOf == map[3 := [D]]
  {
    var e1, e2, e3 := NodeEvent(OtherNode, 0, 0, 1), CommentEvent(Block, "c", Some(Range(2, 7)), 2, 7), NodeEvent(OtherNode, 1, 0, 8);
    var e4, e5, e6 := NodeEvent(OtherNode, 2, 0, 9), CommentEvent(Block, "d", Some(Range(13, 18)), 13, 18), NodeEvent(BlockNode(0), 3, 10, 12);
    forall mode: SpliceMode
      ensures Run(Init(true), mode, [e1, e2, e3, e4, e5, e6]) == VisitNode(PrefixState(), mode, BlockNode(0), 3, 10, 12)
    {
      RunSix(Init(true), mode, e1, e2, e3, e4, e5, e6);
      RunThree(Init(true), mode, e1, e2, e3);
      PrefixRun(mode);
    }
    BlockStepAsWritten();
    BlockStepCorrected();
  }

  /** The handler state just before the empty block is finished. */
  function PrefixState(): Handler {
    Handler(true, [C, D], [NodeInfo(2, 0)], [EC, ED], [ED], map[], map[], map[])
  }

  lemma BlockStepAsWritten()
    ensures 3 !in VisitNode(PrefixState(), AsWritten, BlockNode(0), 3, 10, 12).trailingOf
  {
    var i := BlockInner(AsWritten);
    assert FindTrailingComments(i, 12) == Found(i, []);
    BlockLeading(i);
  }

  lemma BlockStepCorrected()
    ensures VisitNode(PrefixState(), Corrected, BlockNode(0), 3, 10, 12).trailingOf == map[3 := [D]]
  {
    var i := BlockInner(Corrected);
    BlockTrailingCorrected(i);
    BlockLeading(i.(trailing := []));
  }

  lemma BlockTrailingCorrected(i: Handler)
    requires i.trailing == [ED]
    ensures FindTrailingComments(i, 12) == Found(i.(trailing := []), [D])
  {
    assert [ED][..0] == [];
    assert From([ED], 12) == [ED];
  }

  /** The block takes no leading comment: `d` starts after it. */
  lemma BlockLeading(i: Handler)
    requires i.leading == [ED] && i.stack == [NodeInfo(2, 0)] && i.trailingOf == map[] && i.leadingOf == map[]
    ensures FindLeadingComments(i, 10) == Found(i, [])
  {
    assert [ED][..0] == [];
    assert PopFrom(i.stack, 10) == i.stack;
    assert Upto([ED], 10) == [] && Beyond([ED], 10) == [ED];
  }

  /** The inner-comment step for the empty block of SpliceLosesTrailingComment. */
  lemma BlockInner(mode: SpliceMode) returns (g: Handler)
    ensures g == InsertInnerComments(PrefixState(), mode, BlockNode(0), 3, 12)
    ensures g.leading == [ED] && g.stack == [NodeInfo(2, 0)]
    ensures g.trailingOf == map[] && g.leadingOf == map[]
    ensures g.trailing == if mode == AsWritten then [] else [ED]
  {
    if mode == AsWritten {
      AsWrittenSpliceDropsTrailing();
    } else {
      CorrectedSpliceKeepsTrailing();
    }
    g := InsertInnerComments(PrefixState(), mode, BlockNode(0), 3, 12);
  }

  /** The stream of SpliceLosesTrailingComment up to the comment after the block. */
  lemma PrefixRun(mode: SpliceMode)
    ensures Visit(Visit(Run(Init(true), mode, [
              NodeEvent(OtherNode, 0, 0, 1),
              CommentEvent(Block, "c", Some(Range(2, 7)), 2, 7),
              NodeEvent(OtherNode, 1, 0, 8)]), mode,
              NodeEvent(OtherNode, 2, 0, 9)), mode,
              CommentEvent(Block, "d", Some(Range(13, 18)), 13, 18)) == PrefixState()
  {
    RunThree(Init(true), mode, NodeEvent(OtherNode, 0, 0, 1), CommentEvent(Block, "c", Some(Range(2, 7)), 2, 7), NodeEvent(OtherNode, 1, 0, 8));
    var g1 := PrefixFirst(mode);
    var g2 := PrefixComment(mode, g1);
    var g3 := PrefixCall(mode, g2);
    var g4 := PrefixStatement(mode, g3);
    PrefixLast(mode, g4);
  }

  lemma PrefixFirst(mode: SpliceMode) returns (g1: Handler)
    ensures g1 == Visit(Init(true), mode, NodeEvent(OtherNode, 0, 0, 1))
    ensures g1 == Handler(true, [], [NodeInfo(0, 0)], [], [], map[], map[], map[])
  {
    var h := Init(true);
    assert FindTrailingComments(h, 1) == Found(h, []);
    assert FindLeadingComments(h, 0) == Found(h, []);
    g1 := VisitNode(h, mode, OtherNode, 0, 0, 1);
  }

  lemma PrefixComment(mode: SpliceMode, g1: Handler) returns (g2: Handler)
    requires g1 == Handler(true, [], [NodeInfo(0, 0)], [], [], map[], map[], map[])
    ensures g2 == Visit(g1, mode, CommentEvent(Block, "c", Some(Range(2, 7)), 2, 7))
    ensures g2 == Handler(true, [C], [NodeInfo(0, 0)], [EC], [EC], map[], map[], map[])
  {
    g2 := VisitComment(g1, Block, "c", Some(Range(2, 7)), 2, 7);
  }

  lemma PrefixCall(mode: SpliceMode, g2: Handler) returns (g3: Handler)
    requires g2 == Handler(true, [C], [NodeInfo(0, 0)], [EC], [EC], map[], map[], map[])
    ensures g3 == Visit(g2, mode, NodeEvent(OtherNode, 1, 0, 8))
    ensures g3 == Handler(true, [C], [NodeInfo(1, 0)], [EC], [], map[], map[], map[])
  {
    CallTrailing(g2);
    CallLeading(g2.(trailing := []));
    g3 := VisitNode(g2, mode, OtherNode, 1, 0, 8);
  }

  lemma CallTrailing(g2: Handler)
    requires g2.trailing == [EC]
    ensures FindTrailingComments(g2, 8) == Found(g2.(trailing := []), [])
  {
    assert [EC][..0] == [];
    assert From([EC], 8) == [];
  }

  lemma CallLeading(t: Handler)
    requires t == Handler(true, [C], [NodeInfo(0, 0)], [EC], [], map[], map[], map[])
    ensures FindLeadingComments(t, 0) == Found(t.(stack := []), [])
  {
    assert PopFrom(t.stack, 0) == [];
  }

  lemma PrefixStatement(mode: SpliceMode, g3: Handler) returns (g4: Handler)
    requires g3 == Handler(true, [C], [NodeInfo(1, 0)], [EC], [], map[], map[], map[])
    ensures g4 == Visit(g3, mode, NodeEvent(OtherNode, 2, 0, 9))
    ensures g4 == Handler(true, [C], [NodeInfo(2, 0)], [EC], [], map[], map[], map[])
  {
    assert FindTrailingComments(g3, 9) == Found(g3, []);
    assert PopFrom(g3.stack, 0) == [];
    assert FindLeadingComments(g3, 0) == Found(g3.(stack := []), []);
    g4 := VisitNode(g3, mode, OtherNode, 2, 0, 9);
  }

  lemma PrefixLast(mode: SpliceMode, g4: Handler)
    requires g4 == Handler(true, [C], [NodeInfo(2, 0)], [EC], [], map[], map[], map[])
    ensures Visit(g4, mode, CommentEvent(Block, "d", Some(Range(13, 18)), 13, 18)) == PrefixState()
  {
  }

  // ---------------------------------------------------------------------------
  // Every scanned comment is attached at most once in each role.

  /** Every comment held in one attachment field, over all nodes. */
  ghost function Held(m: Attached): multiset<Comment>
    decreases |m|
  {
    if |m| == 0 then multiset{}
    else
      var k :| k in m;
      multiset(m[k]) + Held(m - {k})
  }

  /** Held does not depend on the order in which nodes are visited. */
  lemma {:induction false} HeldRemove(m: Attached, k: nat)
    requires k in m
    ensures Held(m) == multiset(m[k]) + Held(m - {k})
    decreases |m|
  {
    var j :| j in m && Held(m) == multiset(m[j]) + Held(m - {j});
    if j != k {
      var mj := m - {j};
      var mk := m - {k};
      assert k in mj && mj[k] == m[k];
      assert j in mk && mk[j] == m[j];
      HeldRemove(mj, k);
      HeldRemove(mk, j);
      assert mj - {k} == mk - {j};
      Swap(multiset(m[j]), multiset(m[k]), Held(mj - {k}), Held(m), Held(mj), Held(mk));
    }
  }

  lemma Swap(a: multiset<Comment>, b: multiset<Comment>, rest: multiset<Comment>,
             whole: multiset<Comment>, withoutA: multiset<Comment>, withoutB: multiset<Comment>)
    requires whole == a + withoutA && withoutA == b + rest && withoutB == a + rest
    ensures whole == b + withoutB
  {
  }

  lemma HeldPut(m: Attached, k: nat, v: seq<Comment>)
    requires k !in m
    ensures Held(m[k := v]) == Held(m) + multiset(v)
  {
    HeldRemove(m[k := v], k);
    assert m[k := v] - {k} == m;
  }

  /** The comments of an entry list, as a multiset. */
  ghost function Bag(es: seq<Entry>): multiset<Comment> {
    if |es| == 0 then multiset{} else Bag(es[..|es| - 1]) + multiset{es[|es| - 1].comment}
  }

  /** Comments pending as leading, or held as some node's leading or inner comments. */
  ghost function LeadingRole(h: Handler): multiset<Comment> {
    Bag(h.leading) + Held(h.leadingOf) + Held(h.innerOf)
  }

  /** Comments pending as trailing, or held as some node's trailing comments. */
  ghost function TrailingRole(h: Handler): multiset<Comment> {
    Bag(h.trailing) + Held(h.trailingOf)
  }

  /** The ids of the nodes that carry a comment field. */
  function Keys(h: Handler): set<nat> {
    h.leadingOf.Keys + h.trailingOf.Keys + h.innerOf.Keys
  }

  /** The entry comments a stream's comment events put on the pending lists. */
  function Scanned(events: seq<Event>): seq<Comment> {
    if |events| == 0 then []
    else
      var ev := events[|events| - 1];
      Scanned(events[..|events| - 1])
      + (if ev.CommentEvent? then [Comment(ev.kind, ev.value, Some(Range(ev.start, ev.end)))] else [])
  }

  /** The ids of a stream's node events. */
  function NodeIds(events: seq<Event>): set<nat> {
    if |events| == 0 then {}
    else
      var ev := events[|events| - 1];
      NodeIds(events[..|events| - 1]) + (if ev.NodeEvent? then {ev.id} else {})
  }

  /**
   * Every node event names a node that carries no comment field yet and that
   * no earlier event named: the parser reports each node once.
   */
  predicate FreshIds(h: Handler, events: seq<Event>) {
    |events| == 0
    || (var ev := events[|events| - 1];
        && FreshIds(h, events[..|events| - 1])
        && (ev.NodeEvent? ==> ev.id !in Keys(h) && ev.id !in NodeIds(events[..|events| - 1])))
  }

  lemma BagSnoc(es: seq<Entry>, e: Entry)
    ensures Bag(es + [e]) == Bag(es) + multiset{e.comment}
  {
    assert (es + [e])[..|es|] == es;
  }

  lemma {:induction false} BagAppend(a: seq<Entry>, b: seq<Entry>)
    ensures Bag(a + b) == Bag(a) + Bag(b)
  {
    if |b| > 0 {
      var init := b[..|b| - 1];
      var x := b[|b| - 1];
      BagAppend(a, init);
      assert Bag(b) == Bag(init) + multiset{x.comment};
      assert a + b == (a + init) + [x];
      BagSnoc(a + init, x);
    } else {
      assert a + b == a;
    }
  }

  lemma {:induction false} BagIsCommentsOf(es: seq<Entry>)
    ensures multiset(CommentsOf(es)) == Bag(es)
  {
    if |es| > 0 {
      BagIsCommentsOf(es[..|es| - 1]);
      assert CommentsOf(es) == CommentsOf(es[..|es| - 1]) + [es[|es| - 1].comment];
    }
  }

  lemma {:induction false} UptoBeyondBag(es: seq<Entry>, pos: int)
    ensures Bag(Upto(es, pos)) + Bag(Beyond(es, pos)) == Bag(es)
  {
    if |es| > 0 {
      var init := es[..|es| - 1];
      var e := es[|es| - 1];
      UptoBeyondBag(init, pos);
      assert Bag(es) == Bag(init) + multiset{e.comment};
      if e.start <= pos {
        assert Upto(es, pos) == Upto(init, pos) + [e];
        assert Beyond(es, pos) == Beyond(init, pos);
        BagSnoc(Upto(init, pos), e);
      } else {
        assert Upto(es, pos) == Upto(init, pos);
        assert Beyond(es, pos) == Beyond(init, pos) + [e];
        BagSnoc(Beyond(init, pos), e);
      }
    }
  }

  lemma {:induction false} FromBag(es: seq<Entry>, pos: int)
    ensures Bag(From(es, pos)) <= Bag(es)
  {
    if |es| > 0 {
      var init := es[..|es| - 1];
      var e := es[|es| - 1];
      FromBag(init, pos);
      assert Bag(es) == Bag(init) + multiset{e.comment};
      if e.start >= pos {
        assert From(es, pos) == From(init, pos) + [e];
        BagSnoc(From(init, pos), e);
      } else {
        assert From(es, pos) == From(init, pos);
      }
    }
  }

  lemma {:induction false} FilterOutBag(es: seq<Entry>, xs: seq<Entry>)
    ensures Bag(FilterOut(es, xs)) <= Bag(es)
  {
    if |es| > 0 {
      var init := es[..|es| - 1];
      var e := es[|es| - 1];
      FilterOutBag(init, xs);
      assert Bag(es) == Bag(init) + multiset{e.comment};
      if e !in xs {
        assert FilterOut(es, xs) == FilterOut(init, xs) + [e];
        BagSnoc(FilterOut(init, xs), e);
      } else {
        assert FilterOut(es, xs) == FilterOut(init, xs);
      }
    }
  }

  lemma SpliceBag(es: seq<Entry>, i: nat)
    ensures Bag(Splice(es, i)) <= Bag(es)
  {
    if i < |es| {
      assert es == (es[..i] + [es[i]]) + es[i + 1..];
      BagAppend(es[..i], es[i + 1..]);
      BagAppend(es[..i] + [es[i]], es[i + 1..]);
      BagSnoc(es[..i], es[i]);
    }
  }

  /** The inner-comment loop only ever removes entries from the trailing list. */
  lemma {:induction false} InnerLoopTrailingShrinks(mode: SpliceMode, leading: seq<Entry>, trailing: seq<Entry>, end: int, i: nat)
    requires i <= |leading|
    ensures Bag(InnerLoop(mode, leading, trailing, end, i).trailing) <= Bag(trailing)
    decreases i
  {
    if i > 0 {
      if end >= leading[i - 1].start {
        var t := if mode == AsWritten then Splice(trailing, i - 1) else FilterOut(trailing, [leading[i - 1]]);
        InnerLoopTrailingShrinks(mode, Splice(leading, i - 1), t, end, i - 1);
        ClaimedStepShrinks(mode, leading, trailing, end, i);
      } else {
        InnerLoopTrailingShrinks(mode, leading, trailing, end, i - 1);
      }
    }
  }

  lemma ClaimedStepShrinks(mode: SpliceMode, leading: seq<Entry>, trailing: seq<Entry>, end: int, i: nat)
    requires 0 < i <= |leading| && end >= leading[i - 1].start
    requires var t := if mode == AsWritten then Splice(trailing, i - 1) else FilterOut(trailing, [leading[i - 1]]);
             Bag(InnerLoop(mode, Splice(leading, i - 1), t, end, i - 1).trailing) <= Bag(t)
    ensures Bag(InnerLoop(mode, leading, trailing, end, i).trailing) <= Bag(trailing)
  {
    var t := if mode == AsWritten then Splice(trailing, i - 1) else FilterOut(trailing, [leading[i - 1]]);
    var after := InnerLoop(mode, Splice(leading, i - 1), t, end, i - 1).trailing;
    assert InnerLoop(mode, leading, trailing, end, i).trailing == after by {
      InnerLoopClaimStep(mode, leading, trailing, end, i);
    }
    assert Bag(t) <= Bag(trailing) by {
      if mode == AsWritten {
        SpliceBag(trailing, i - 1);
      } else {
        FilterOutBag(trailing, [leading[i - 1]]);
      }
    }
    SubTrans(Bag(after), Bag(t), Bag(trailing));
  }

  lemma SubTrans(a: multiset<Comment>, b: multiset<Comment>, c: multiset<Comment>)
    requires a <= b && b <= c
    ensures a <= c
  {
  }

  /**
   * insertInnerComments moves comments within the leading role without adding
   * or losing any, only drops comments from the trailing list, and gives a
   * field to no node but the block.
   */
  lemma InsertInnerRoles(h: Handler, mode: SpliceMode, node: NodeShape, id: nat, end: int)
    requires id !in h.innerOf
    ensures var g := InsertInnerComments(h, mode, node, id, end);
            && LeadingRole(g) == LeadingRole(h)
            && Bag(g.trailing) <= Bag(h.trailing)
            && g.innerOf.Keys <= h.innerOf.Keys + {id}
  {
    if node.BlockNode? && node.bodyLength == 0 {
      var g := InsertInnerComments(h, mode, node, id, end);
      var up := Upto(h.leading, end);
      InnerHeld(h, mode, node, id, end);
      InnerLeadingBag(h, mode, node, id, end);
      InnerLoopTrailingShrinks(mode, h.leading, h.trailing, end, |h.leading|);
      MovedWithinRole(Bag(h.leading), Bag(g.leading), Held(h.innerOf), Held(g.innerOf), Bag(up), Held(h.leadingOf));
    }
  }

  lemma MovedWithinRole(before: multiset<Comment>, after: multiset<Comment>, held: multiset<Comment>,
                        held': multiset<Comment>, moved: multiset<Comment>, other: multiset<Comment>)
    requires after + moved == before && held' == held + moved
    ensures after + other + held' == before + other + held
  {
  }

  lemma InnerHeld(h: Handler, mode: SpliceMode, node: NodeShape, id: nat, end: int)
    requires id !in h.innerOf && node.BlockNode? && node.bodyLength == 0
    ensures var g := InsertInnerComments(h, mode, node, id, end);
            && Held(g.innerOf) == Held(h.innerOf) + Bag(Upto(h.leading, end))
            && g.innerOf.Keys <= h.innerOf.Keys + {id}
  {
    var up := Upto(h.leading, end);
    InsertInnerSpec(h, mode, node, id, end);
    BagIsCommentsOf(up);
    if |up| > 0 {
      HeldPut(h.innerOf, id, CommentsOf(up));
    }
  }

  lemma InnerLeadingBag(h: Handler, mode: SpliceMode, node: NodeShape, id: nat, end: int)
    requires node.BlockNode? && node.bodyLength == 0
    ensures Bag(InsertInnerComments(h, mode, node, id, end).leading) + Bag(Upto(h.leading, end)) == Bag(h.leading)
  {
    InsertInnerSpec(h, mode, node, id, end);
    UptoBeyondBag(h.leading, end);
  }

  /** What findTrailingComments hands out was in the trailing role, and at most once. */
  lemma FindTrailingRoles(h: Handler, end: int)
    ensures var r := FindTrailingComments(h, end);
            multiset(r.found) + TrailingRole(r.h) <= TrailingRole(h)
  {
    if |h.trailing| > 0 {
      FromBag(h.trailing, end);
      BagIsCommentsOf(From(h.trailing, end));
      assert Bag([]) == multiset{};
    } else if CanBorrowTrailing(h, end) {
      HeldRemove(h.trailingOf, h.stack[|h.stack| - 1].id);
    }
  }

  /** findTrailingComments only ever removes a node's trailing-comment field. */
  lemma FindTrailingKeys(h: Handler, end: int)
    ensures FindTrailingComments(h, end).h.trailingOf.Keys <= h.trailingOf.Keys
  {
  }

  /** What findLeadingComments hands out leaves the leading role, and nothing else does. */
  lemma FindLeadingRoles(h: Handler, start: int)
    ensures var r := FindLeadingComments(h, start);
            multiset(r.found) + LeadingRole(r.h) == LeadingRole(h)
  {
    var rest := PopFrom(h.stack, start);
    if |rest| == |h.stack| {
      LeadingWithoutTarget(h, start);
    } else if h.stack[|rest|].id in h.leadingOf {
      LeadingFromTarget(h, start);
    } else {
      LeadingUntouched(h, start);
    }
  }

  lemma LeadingUntouched(h: Handler, start: int)
    requires |PopFrom(h.stack, start)| < |h.stack| && h.stack[|PopFrom(h.stack, start)|].id !in h.leadingOf
    ensures var r := FindLeadingComments(h, start);
            multiset(r.found) + LeadingRole(r.h) == LeadingRole(h)
  {
    var r := FindLeadingComments(h, start);
    assert r.found == [] && r.h.leading == h.leading && r.h.leadingOf == h.leadingOf && r.h.innerOf == h.innerOf;
  }

  /** findLeadingComments only ever removes a node's leading-comment field. */
  lemma FindLeadingKeys(h: Handler, start: int)
    ensures FindLeadingComments(h, start).h.leadingOf.Keys <= h.leadingOf.Keys
  {
  }

  lemma LeadingWithoutTarget(h: Handler, start: int)
    requires |PopFrom(h.stack, start)| == |h.stack|
    ensures var r := FindLeadingComments(h, start);
            multiset(r.found) + LeadingRole(r.h) == LeadingRole(h)
  {
    var r := FindLeadingComments(h, start);
    assert multiset(r.found) + Bag(r.h.leading) == Bag(h.leading) by {
      UptoBeyondBag(h.leading, start);
      BagIsCommentsOf(Upto(h.leading, start));
    }
    MovedOut(Bag(h.leading), Bag(r.h.leading), multiset(r.found), Held(h.leadingOf) + Held(h.innerOf));
  }

  lemma LeadingFromTarget(h: Handler, start: int)
    requires |PopFrom(h.stack, start)| < |h.stack| && h.stack[|PopFrom(h.stack, start)|].id in h.leadingOf
    ensures var r := FindLeadingComments(h, start);
            multiset(r.found) + LeadingRole(r.h) == LeadingRole(h)
  {
    var r := FindLeadingComments(h, start);
    var target := h.stack[|PopFrom(h.stack, start)|].id;
    if |NotEndingBy(h.leadingOf[target], start)| == 0 {
      TargetAllTaken(h.leadingOf, target, start);
    } else {
      TargetSomeKept(h.leadingOf, target, start);
    }
    MovedOut(Held(h.leadingOf), Held(r.h.leadingOf), multiset(r.found), Bag(h.leading) + Held(h.innerOf));
  }

  lemma MovedOut(before: multiset<Comment>, after: multiset<Comment>, moved: multiset<Comment>, other: multiset<Comment>)
    requires moved + after == before
    ensures moved + (after + other) == before + other
  {
  }

  /** A target that loses all its leading comments loses the field. */
  lemma TargetAllTaken(m: Attached, target: nat, pos: int)
    requires target in m && |NotEndingBy(m[target], pos)| == 0
    ensures multiset(EndingBy(m[target], pos)) + Held(m - {target}) == Held(m)
  {
    var own := m[target];
    HeldRemove(m, target);
    EndingByPartition(own, pos);
    Regroup(multiset(EndingBy(own, pos)), multiset(NotEndingBy(own, pos)), multiset(own), Held(m - {target}),
            Held(m), Held(m - {target}));
  }

  /** A target that keeps some leading comments keeps exactly those. */
  lemma TargetSomeKept(m: Attached, target: nat, pos: int)
    requires target in m && |NotEndingBy(m[target], pos)| > 0
    ensures var keep := NotEndingBy(m[target], pos);
            multiset(EndingBy(m[target], pos)) + Held(m[target := keep]) == Held(m)
  {
    var own := m[target];
    var keep := NotEndingBy(own, pos);
    HeldRemove(m, target);
    EndingByPartition(own, pos);
    HeldReplace(m, target, keep);
    Regroup(multiset(EndingBy(own, pos)), multiset(keep), multiset(own), Held(m - {target}),
            Held(m), Held(m[target := keep]));
  }

  lemma HeldReplace(m: Attached, k: nat, v: seq<Comment>)
    requires k in m
    ensures Held(m[k := v]) == multiset(v) + Held(m - {k})
  {
    HeldRemove(m[k := v], k);
    assert m[k := v] - {k} == m - {k};
  }

  lemma Regroup(taken: multiset<Comment>, kept: multiset<Comment>, whole: multiset<Comment>, rest: multiset<Comment>,
                before: multiset<Comment>, after: multiset<Comment>)
    requires before == whole + rest && taken + kept == whole && after == kept + rest
    ensures taken + after == before
  {
  }

  /**
   * visitNode on a node with no comment field yet moves comments within the
   * leading role without adding or losing any, only drops comments from the
   * trailing role, and gives fields to no node but this one.
   */
  lemma VisitNodeRoles(h: Handler, mode: SpliceMode, node: NodeShape, id: nat, start: int, end: int)
    requires id !in Keys(h)
    ensures var g := VisitNode(h, mode, node, id, start, end);
            && LeadingRole(g) == LeadingRole(h)
            && TrailingRole(g) <= TrailingRole(h)
            && Keys(g) <= Keys(h) + {id}
  {
    if !(node.ProgramNode? && node.bodyLength > 0) {
      VisitNodeKeys(h, mode, node, id, start, end);
      VisitNodeLeading(h, mode, node, id, start, end);
      VisitNodeTrailing(h, mode, node, id, start, end);
    }
  }

  lemma VisitNodeKeys(h: Handler, mode: SpliceMode, node: NodeShape, id: nat, start: int, end: int)
    requires !(node.ProgramNode? && node.bodyLength > 0)
    ensures var g := VisitNode(h, mode, node, id, start, end);
            && g.leadingOf.Keys <= h.leadingOf.Keys + {id}
            && g.trailingOf.Keys <= h.trailingOf.Keys + {id}
            && g.innerOf.Keys <= h.innerOf.Keys + {id}
  {
    var h1 := InsertInnerComments(h, mode, node, id, end);
    var t := FindTrailingComments(h1, end);
    if node.BlockNode? && node.bodyLength == 0 {
      InsertInnerSpec(h, mode, node, id, end);
    }
    FindTrailingKeys(h1, end);
    FindLeadingKeys(t.h, start);
  }

  lemma HeldPutFound(m: Attached, id: nat, found: seq<Comment>)
    requires id !in m
    ensures Held(if |found| > 0 then m[id := found] else m) == Held(m) + multiset(found)
  {
    if |found| > 0 {
      HeldPut(m, id, found);
    } else {
      assert multiset(found) == multiset{};
    }
  }

  lemma VisitNodeLeading(h: Handler, mode: SpliceMode, node: NodeShape, id: nat, start: int, end: int)
    requires id !in Keys(h) && !(node.ProgramNode? && node.bodyLength > 0)
    ensures LeadingRole(VisitNode(h, mode, node, id, start, end)) == LeadingRole(h)
  {
    var h1 := InsertInnerComments(h, mode, node, id, end);
    var t := FindTrailingComments(h1, end);
    var l := FindLeadingComments(t.h, start);
    var g := VisitNode(h, mode, node, id, start, end);
    InsertInnerRoles(h, mode, node, id, end);
    assert LeadingRole(t.h) == LeadingRole(h1);
    FindLeadingRoles(t.h, start);
    FindLeadingKeys(t.h, start);
    HeldPutFound(l.h.leadingOf, id, l.found);
    assert g.leadingOf == if |l.found| > 0 then l.h.leadingOf[id := l.found] else l.h.leadingOf;
    Shuffle(Bag(l.h.leading), Held(l.h.leadingOf), Held(l.h.innerOf), multiset(l.found), Held(g.leadingOf), LeadingRole(h));
  }

  lemma Shuffle(pending: multiset<Comment>, held: multiset<Comment>, inner: multiset<Comment>, found: multiset<Comment>,
                held': multiset<Comment>, before: multiset<Comment>)
    requires found + (pending + held + inner) == before && held' == held + found
    ensures pending + held' + inner == before
  {
  }

  lemma VisitNodeTrailing(h: Handler, mode: SpliceMode, node: NodeShape, id: nat, start: int, end: int)
    requires id !in Keys(h) && !(node.ProgramNode? && node.bodyLength > 0)
    ensures TrailingRole(VisitNode(h, mode, node, id, start, end)) <= TrailingRole(h)
  {
    var h1 := InsertInnerComments(h, mode, node, id, end);
    var t := FindTrailingComments(h1, end);
    var l := FindLeadingComments(t.h, start);
    var g := VisitNode(h, mode, node, id, start, end);
    InsertInnerRoles(h, mode, node, id, end);
    FindTrailingRoles(h1, end);
    FindTrailingKeys(h1, end);
    HeldPutFound(t.h.trailingOf, id, t.found);
    assert g.trailingOf == if |t.found| > 0 then t.h.trailingOf[id := t.found] else t.h.trailingOf;
    assert Bag(g.trailing) == multiset{} && Bag(t.h.trailing) == multiset{};
    Shrink(Bag(h.trailing), Bag(h1.trailing), Held(h.trailingOf), Held(t.h.trailingOf), multiset(t.found), Held(g.trailingOf));
  }

  lemma Shrink(pending: multiset<Comment>, pending': multiset<Comment>, held: multiset<Comment>, held': multiset<Comment>,
               found: multiset<Comment>, after: multiset<Comment>)
    requires pending' <= pending && found + held' <= pending' + held && after == held' + found
    ensures multiset{} + after <= pending + held
  {
    assert after == found + held';
    assert pending' + held <= pending + held by {
      forall c | c in pending' + held
        ensures (pending' + held)[c] <= (pending + held)[c]
      {
        assert pending'[c] <= pending[c];
      }
    }
  }

  lemma VisitRoles(h: Handler, mode: SpliceMode, ev: Event)
    requires h.attach
    requires ev.NodeEvent? ==> ev.id !in Keys(h)
    ensures LeadingRole(Visit(h, mode, ev)) == LeadingRole(h) + multiset(Scanned([ev]))
    ensures TrailingRole(Visit(h, mode, ev)) <= TrailingRole(h) + multiset(Scanned([ev]))
    ensures Keys(Visit(h, mode, ev)) <= Keys(h) + NodeIds([ev])
  {
    assert [ev][..0] == [];
    if ev.CommentEvent? {
      VisitCommentRoles(h, ev.kind, ev.value, ev.range, ev.start, ev.end);
    } else {
      VisitNodeRoles(h, mode, ev.node, ev.id, ev.start, ev.end);
    }
  }

  /** visitComment adds its entry's comment to both roles once. */
  lemma VisitCommentRoles(h: Handler, kind: CommentKind, value: string, range: Option<Range>, start: int, end: int)
    requires h.attach
    ensures var g := VisitComment(h, kind, value, range, start, end);
            var c := Comment(kind, value, Some(Range(start, end)));
            && LeadingRole(g) == LeadingRole(h) + multiset{c}
            && TrailingRole(g) == TrailingRole(h) + multiset{c}
            && Keys(g) == Keys(h)
  {
    VisitCommentLeading(h, kind, value, range, start, end);
    VisitCommentTrailing(h, kind, value, range, start, end);
  }

  lemma VisitCommentLeading(h: Handler, kind: CommentKind, value: string, range: Option<Range>, start: int, end: int)
    requires h.attach
    ensures LeadingRole(VisitComment(h, kind, value, range, start, end))
         == LeadingRole(h) + multiset{Comment(kind, value, Some(Range(start, end)))}
  {
    var g := VisitComment(h, kind, value, range, start, end);
    var e := Entry(Comment(kind, value, Some(Range(start, end))), start, |h.comments|);
    BagSnoc(h.leading, e);
    AddOneRole(Bag(h.leading), Bag(g.leading), Held(h.leadingOf), Held(h.innerOf), multiset{e.comment});
  }

  lemma VisitCommentTrailing(h: Handler, kind: CommentKind, value: string, range: Option<Range>, start: int, end: int)
    requires h.attach
    ensures TrailingRole(VisitComment(h, kind, value, range, start, end))
         == TrailingRole(h) + multiset{Comment(kind, value, Some(Range(start, end)))}
  {
    var g := VisitComment(h, kind, value, range, start, end);
    var e := Entry(Comment(kind, value, Some(Range(start, end))), start, |h.comments|);
    BagSnoc(h.trailing, e);
    AddOneRole(Bag(h.trailing), Bag(g.trailing), Held(h.trailingOf), multiset{}, multiset{e.comment});
  }

  lemma AddOneRole(pending: multiset<Comment>, pending': multiset<Comment>, a: multiset<Comment>, b: multiset<Comment>,
                   one: multiset<Comment>)
    requires pending' == pending + one
    ensures pending' + a + b == pending + a + b + one
    ensures pending' + a == pending + a + one
  {
  }

  /**
   * Over a run that attaches, with every node reported once: the leading
   * role (pending leading, leading and inner comments of all nodes) holds
   * each scanned comment exactly as often as it was scanned, and the trailing
   * role (pending trailing, trailing comments of all nodes) at most as often.
   * So no comment is attached twice as leading or inner comment, nor twice as
   * trailing comment, and a leading-role comment is never lost.
   */
  lemma {:induction false} RunAttachesOncePerRole(h: Handler, mode: SpliceMode, events: seq<Event>)
    requires h.attach && FreshIds(h, events)
    ensures LeadingRole(Run(h, mode, events)) == LeadingRole(h) + multiset(Scanned(events))
    ensures TrailingRole(Run(h, mode, events)) <= TrailingRole(h) + multiset(Scanned(events))
    ensures Keys(Run(h, mode, events)) <= Keys(h) + NodeIds(events)
  {
    if |events| > 0 {
      var init := events[..|events| - 1];
      var ev := events[|events| - 1];
      RunAttachesOncePerRole(h, mode, init);
      RunStep(h, mode, events);
    }
  }

  lemma RunStep(h: Handler, mode: SpliceMode, events: seq<Event>)
    requires |events| > 0 && h.attach && FreshIds(h, events)
    requires var g := Run(h, mode, events[..|events| - 1]);
             var s := multiset(Scanned(events[..|events| - 1]));
             && LeadingRole(g) == LeadingRole(h) + s
             && TrailingRole(g) <= TrailingRole(h) + s
             && Keys(g) <= Keys(h) + NodeIds(events[..|events| - 1])
    ensures LeadingRole(Run(h, mode, events)) == LeadingRole(h) + multiset(Scanned(events))
    ensures TrailingRole(Run(h, mode, events)) <= TrailingRole(h) + multiset(Scanned(events))
    ensures Keys(Run(h, mode, events)) <= Keys(h) + NodeIds(events)
  {
    var init := events[..|events| - 1];
    var ev := events[|events| - 1];
    var g := Run(h, mode, init);
    RunRecordsEveryComment(h, mode, init);
    assert ev.NodeEvent? ==> ev.id !in Keys(g);
    VisitRoles(g, mode, ev);
    SnocEvent(events);
    Accumulate(LeadingRole(h), TrailingRole(h), LeadingRole(g), TrailingRole(g),
               LeadingRole(Run(h, mode, events)), TrailingRole(Run(h, mode, events)),
               multiset(Scanned(init)), multiset(Scanned([ev])));
  }

  lemma SnocEvent(events: seq<Event>)
    requires |events| > 0
    ensures var init := events[..|events| - 1];
            var ev := events[|events| - 1];
            && multiset(Scanned(events)) == multiset(Scanned(init)) + multiset(Scanned([ev]))
            && NodeIds(events) == NodeIds(init) + NodeIds([ev])
  {
    var ev := events[|events| - 1];
    assert [ev][..0] == [];
  }

  lemma Accumulate(lead: multiset<Comment>, trail: multiset<Comment>, lead': multiset<Comment>, trail': multiset<Comment>,
                   lead'': multiset<Comment>, trail'': multiset<Comment>, s: multiset<Comment>, s': multiset<Comment>)
    requires lead' == lead + s && trail' <= trail + s
    requires lead'' == lead' + s' && trail'' <= trail' + s'
    ensures lead'' == lead + (s + s') && trail'' <= trail + (s + s')
  {
  }

  /** From a fresh handler: each scanned comment is a leading or inner comment of some node, or pending, exactly once per scan. */
  lemma FromStartEachCommentOncePerRole(mode: SpliceMode, events: seq<Event>)
    requires FreshIds(Init(true), events)
    ensures LeadingRole(Run(Init(true), mode, events)) == multiset(Scanned(events))
    ensures TrailingRole(Run(Init(true), mode, events)) <= multiset(Scanned(events))
  {
    RunAttachesOncePerRole(Init(true), mode, events);
  }
}
