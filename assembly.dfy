/**
 * The chunk assembly loop (src/main.rs:69-107): the top-level nodes of a
 * file are walked in order; runs of comments on consecutive lines are
 * collected, and a run is paired with the node that starts on the line
 * right after its last comment.
 *
 * The state machine is stated on node indices (`Step`, `Run`): which
 * comments go with which declaration. Turning each such group into a
 * `Chunk` is `BuildChunk`, and `AssembleChunks` is the loop itself.
 */
module Assembly {
  import opened Wrappers
  import opened Tree
  import opened Failures
  import opened Attr
  import opened Comments
  import opened Decl
  import opened Chunks

  predicate IsComment(n: Node) {
    n.kind == "comment"
  }

  /** The indices of a comment run and of the node it documents. */
  datatype Group = Group(comments: seq<nat>, decl: nat)

  /** `comments` (as indices), `prev_line`, and the groups emitted so far. */
  datatype AsmState = AsmState(pending: seq<nat>, prev: Option<nat>, groups: seq<Group>)

  /** One iteration of the loop, on the node at index `k`. */
  function Step(nodes: seq<Node>, st: AsmState, k: nat): (r: AsmState)
    requires k < |nodes|
  {
    var n := nodes[k];
    if IsComment(n) then
      var kept := if st.prev.Some? && n.startLine != st.prev.value + 1 then [] else st.pending;
      AsmState(kept + [k], Some(n.startLine), st.groups)
    else
      match st.prev
      case Some(line) =>
        if n.startLine == line + 1 then AsmState([], None, st.groups + [Group(st.pending, k)])
        else st
      case None => AsmState([], None, st.groups)
  }

  /** The state after the first `k` nodes. */
  function Run(nodes: seq<Node>, k: nat): AsmState
    requires k <= |nodes|
  {
    if k == 0 then AsmState([], None, []) else Step(nodes, Run(nodes, k - 1), k - 1)
  }

  /** Whether the loop emits a chunk at the node with index `k`. */
  predicate EmitsAt(nodes: seq<Node>, k: nat)
    requires k < |nodes|
  {
    var st := Run(nodes, k);
    !IsComment(nodes[k]) && st.prev.Some? && nodes[k].startLine == st.prev.value + 1
  }

  // ---- the invariant of the loop ----

  /** Every index is below `bound` and names a comment. */
  ghost predicate CommentsBelow(nodes: seq<Node>, idx: seq<nat>, bound: nat) {
    forall i :: 0 <= i < |idx| ==> idx[i] < bound && idx[i] < |nodes| && IsComment(nodes[idx[i]])
  }

  /** Increasing indices whose nodes start on consecutive lines (the `j`-th one `j - i` lines after the `i`-th). */
  ghost predicate Consecutive(nodes: seq<Node>, idx: seq<nat>) {
    forall i, j :: 0 <= i < j < |idx| && idx[j] < |nodes| ==>
      idx[i] < idx[j] && nodes[idx[j]].startLine == nodes[idx[i]].startLine + (j - i)
  }

  /**
   * An emitted group: a non-empty comment run on consecutive lines, and a
   * non-comment node after it that starts on the line after its last comment.
   */
  ghost predicate GoodGroup(nodes: seq<Node>, g: Group) {
    |g.comments| > 0 && CommentsBelow(nodes, g.comments, g.decl) && Consecutive(nodes, g.comments)
    && g.decl < |nodes| && !IsComment(nodes[g.decl])
    && nodes[g.decl].startLine == nodes[g.comments[|g.comments| - 1]].startLine + 1
  }

  /** Each group lies entirely after the previous group's declaration. */
  ghost predicate InNodeOrder(gs: seq<Group>) {
    forall i, j :: 0 <= i < j < |gs| && j == i + 1 ==> |gs[j].comments| > 0 && gs[i].decl < gs[j].comments[0]
  }

  /** The pending run: comments before `k` on consecutive lines, the last of them on `prev`. */
  ghost predicate PendingInv(nodes: seq<Node>, st: AsmState, k: nat) {
    && CommentsBelow(nodes, st.pending, k) && Consecutive(nodes, st.pending)
    && (st.prev.None? <==> st.pending == [])
    && (st.prev.Some? ==> st.prev.value == nodes[st.pending[|st.pending| - 1]].startLine)
  }

  /** The groups emitted before `k`: each well formed, in node order, and all before the pending run. */
  ghost predicate GroupsInv(nodes: seq<Node>, st: AsmState, k: nat) {
    && (forall i :: 0 <= i < |st.groups| ==> GoodGroup(nodes, st.groups[i]) && st.groups[i].decl < k)
    && InNodeOrder(st.groups)
    && (st.groups != [] && st.pending != [] ==> st.groups[|st.groups| - 1].decl < st.pending[0])
  }

  ghost predicate Inv(nodes: seq<Node>, st: AsmState, k: nat) {
    k <= |nodes| && PendingInv(nodes, st, k) && GroupsInv(nodes, st, k)
  }

  /** The step at node `k - 1` keeps the pending run well formed. */
  lemma StepKeepsPending(nodes: seq<Node>, st: AsmState, k: nat)
    requires 0 < k <= |nodes| && PendingInv(nodes, st, k - 1)
    ensures PendingInv(nodes, Step(nodes, st, k - 1), k)
  {
    var n := nodes[k - 1];
    if IsComment(n) {
      var kept := if st.prev.Some? && n.startLine != st.prev.value + 1 then [] else st.pending;
      assert Step(nodes, st, k - 1).pending == kept + [k - 1];
      assert CommentsBelow(nodes, kept + [k - 1], k);
      assert Consecutive(nodes, kept + [k - 1]);
    }
  }

  /** The step at node `k - 1` keeps the emitted groups well formed, including any group it emits. */
  lemma StepKeepsGroups(nodes: seq<Node>, st: AsmState, k: nat)
    requires 0 < k <= |nodes| && PendingInv(nodes, st, k - 1) && GroupsInv(nodes, st, k - 1)
    ensures GroupsInv(nodes, Step(nodes, st, k - 1), k)
  {
    var n := nodes[k - 1];
    var r := Step(nodes, st, k - 1);
    if IsComment(n) {
      var kept := if st.prev.Some? && n.startLine != st.prev.value + 1 then [] else st.pending;
      assert r.pending == kept + [k - 1];
    } else if st.prev.Some? && n.startLine == st.prev.value + 1 {
      var g := Group(st.pending, k - 1);
      assert GoodGroup(nodes, g);
      assert r.groups == st.groups + [g];
      assert InNodeOrder(r.groups);
    }
  }

  /** `Run` advanced by one node. */
  lemma RunStep(nodes: seq<Node>, k: nat)
    requires k < |nodes|
    ensures Run(nodes, k + 1) == Step(nodes, Run(nodes, k), k)
  {
  }

  /** The invariant holds after every prefix of the nodes. */
  lemma {:induction false} RunInv(nodes: seq<Node>, k: nat)
    requires k <= |nodes|
    ensures Inv(nodes, Run(nodes, k), k)
  {
    if k > 0 {
      var before := Run(nodes, k - 1);
      RunInv(nodes, k - 1);
      StepKeepsPending(nodes, before, k);
      StepKeepsGroups(nodes, before, k);
    }
  }

  /** The groups after `k` nodes are a prefix of those after `m >= k` nodes; the rest come later. */
  lemma {:induction false} RunGrows(nodes: seq<Node>, k: nat, m: nat)
    requires k <= m <= |nodes|
    ensures |Run(nodes, k).groups| <= |Run(nodes, m).groups|
    ensures Run(nodes, m).groups[..|Run(nodes, k).groups|] == Run(nodes, k).groups
    ensures forall i :: |Run(nodes, k).groups| <= i < |Run(nodes, m).groups| ==> Run(nodes, m).groups[i].decl >= k
    decreases m - k
  {
    if k < m {
      RunGrows(nodes, k, m - 1);
      var before := Run(nodes, m - 1).groups;
      var after := Run(nodes, m).groups;
      assert after == before || after == before + [Group(Run(nodes, m - 1).pending, m - 1)];
      assert after[..|before|] == before;
    } else {
      assert Run(nodes, m).groups[..|Run(nodes, k).groups|] == Run(nodes, m).groups;
    }
  }

  /** The groups of the whole file. */
  function Groups(nodes: seq<Node>): seq<Group> {
    Run(nodes, |nodes|).groups
  }

  /** Every group of the file is well formed, and the groups follow the file's order. */
  lemma GroupsWellFormed(nodes: seq<Node>)
    ensures forall i :: 0 <= i < |Groups(nodes)| ==> GoodGroup(nodes, Groups(nodes)[i])
    ensures InNodeOrder(Groups(nodes))
  {
    RunInv(nodes, |nodes|);
  }

  /** A node gets a chunk if and only if it is a non-comment that starts right after the pending run. */
  lemma EmittedIff(nodes: seq<Node>, k: nat)
    requires k < |nodes|
    ensures (exists i :: 0 <= i < |Groups(nodes)| && Groups(nodes)[i].decl == k) <==> EmitsAt(nodes, k)
    ensures EmitsAt(nodes, k) ==>
      exists i :: 0 <= i < |Groups(nodes)| && Groups(nodes)[i] == Group(Run(nodes, k).pending, k)
  {
    RunInv(nodes, k);
    RunGrows(nodes, k, k + 1);
    RunGrows(nodes, k + 1, |nodes|);
    var before := Run(nodes, k).groups;
    var step := Run(nodes, k + 1).groups;
    var all := Groups(nodes);
    assert forall i :: 0 <= i < |before| ==> before[i].decl < k;
    assert forall i :: 0 <= i < |before| ==> all[i] == before[i];
    if EmitsAt(nodes, k) {
      assert step == before + [Group(Run(nodes, k).pending, k)];
      assert all[|before|] == step[|before|];
    } else {
      assert step == before;
    }
  }

  // ---- building the chunks ----

  /** The nodes at the given indices. */
  function NodesAt(nodes: seq<Node>, idx: seq<nat>): (r: seq<Node>)
    requires forall i :: 0 <= i < |idx| ==> idx[i] < |nodes|
    ensures |r| == |idx| && forall i :: 0 <= i < |idx| ==> r[i] == nodes[idx[i]]
  {
    seq(|idx|, i requires 0 <= i < |idx| => nodes[idx[i]])
  }

  predicate InRange(nodes: seq<Node>, g: Group) {
    g.decl < |nodes| && forall i :: 0 <= i < |g.comments| ==> g.comments[i] < |nodes|
  }

  /** A chunk from a group: parse the comments, then classify the declaration (src/main.rs:91-98). */
  function BuildChunk(nodes: seq<Node>, g: Group, isNoDoc: string -> bool): (r: Result<Chunk, Panic>)
    requires InRange(nodes, g)
  {
    match ParseResult(NodesAt(nodes, g.comments), isNoDoc)
    case Err(e) => Err(e)
    case Ok(parsed) =>
      match NodeToDecl(nodes[g.decl])
      case Err(e) => Err(e)
      case Ok(d) => Ok(Chunk(parsed.0, parsed.1, d))
  }

  /** The chunks of the groups, in order; the first failing group decides a failure. */
  function BuildAll(nodes: seq<Node>, gs: seq<Group>, isNoDoc: string -> bool): (r: Result<seq<Chunk>, Panic>)
    requires forall i :: 0 <= i < |gs| ==> InRange(nodes, gs[i])
    ensures r.Ok? ==> |r.value| == |gs|
  {
    if gs == [] then Ok([])
    else
      match BuildAll(nodes, gs[..|gs| - 1], isNoDoc)
      case Err(e) => Err(e)
      case Ok(cs) =>
        match BuildChunk(nodes, gs[|gs| - 1], isNoDoc)
        case Err(e) => Err(e)
        case Ok(c) => Ok(cs + [c])
  }

  /** What the loop produces: the chunks of all groups of the file, or the first failure. */
  function AssembleSpec(nodes: seq<Node>, isNoDoc: string -> bool): Result<seq<Chunk>, Panic> {
    RunInRange(nodes, |nodes|);
    BuildAll(nodes, Groups(nodes), isNoDoc)
  }

  /** Once the chunks of a prefix of the groups fail, the whole assembly fails the same way. */
  lemma {:induction false} BuildAllKeepsFailure(nodes: seq<Node>, gs: seq<Group>, j: nat, isNoDoc: string -> bool)
    requires forall i :: 0 <= i < |gs| ==> InRange(nodes, gs[i])
    requires j <= |gs| && BuildAll(nodes, gs[..j], isNoDoc).Err?
    ensures BuildAll(nodes, gs, isNoDoc) == BuildAll(nodes, gs[..j], isNoDoc)
    decreases |gs| - j
  {
    if j < |gs| {
      assert gs[..j + 1][..j] == gs[..j];
      BuildAllKeepsFailure(nodes, gs, j + 1, isNoDoc);
    } else {
      assert gs[..j] == gs;
    }
  }

  /** Adding a group adds its chunk, or fails with it. */
  lemma BuildAllSnoc(nodes: seq<Node>, gs: seq<Group>, g: Group, isNoDoc: string -> bool)
    requires forall i :: 0 <= i < |gs| ==> InRange(nodes, gs[i])
    requires InRange(nodes, g) && BuildAll(nodes, gs, isNoDoc).Ok?
    ensures BuildAll(nodes, gs + [g], isNoDoc) ==
      match BuildChunk(nodes, g, isNoDoc)
      case Err(e) => Err(e)
      case Ok(c) => Ok(BuildAll(nodes, gs, isNoDoc).value + [c])
  {
    assert (gs + [g])[..|gs|] == gs;
  }

  /** `chunks` are the chunks of the groups `gs`, one for one. */
  ghost predicate ChunksOf(nodes: seq<Node>, gs: seq<Group>, chunks: seq<Chunk>, isNoDoc: string -> bool)
    requires forall i :: 0 <= i < |gs| ==> InRange(nodes, gs[i])
  {
    |chunks| == |gs| && forall i :: 0 <= i < |gs| ==> BuildChunk(nodes, gs[i], isNoDoc) == Ok(chunks[i])
  }

  lemma BuildAllUnfold(nodes: seq<Node>, gs: seq<Group>, chunks: seq<Chunk>, isNoDoc: string -> bool)
    requires forall i :: 0 <= i < |gs| ==> InRange(nodes, gs[i])
    requires |chunks| == |gs| > 0
    ensures BuildAll(nodes, gs, isNoDoc) == Ok(chunks) <==>
      BuildAll(nodes, gs[..|gs| - 1], isNoDoc) == Ok(chunks[..|gs| - 1])
      && BuildChunk(nodes, gs[|gs| - 1], isNoDoc) == Ok(chunks[|gs| - 1])
  {
    assert chunks == chunks[..|gs| - 1] + [chunks[|gs| - 1]];
  }

  lemma ChunksOfInit(nodes: seq<Node>, gs: seq<Group>, chunks: seq<Chunk>, isNoDoc: string -> bool)
    requires forall i :: 0 <= i < |gs| ==> InRange(nodes, gs[i])
    requires |chunks| == |gs| > 0 && ChunksOf(nodes, gs, chunks, isNoDoc)
    ensures ChunksOf(nodes, gs[..|gs| - 1], chunks[..|gs| - 1], isNoDoc)
  {
    var n := |gs| - 1;
    forall i | 0 <= i < n
      ensures BuildChunk(nodes, gs[..n][i], isNoDoc) == Ok(chunks[..n][i])
    {
      assert gs[..n][i] == gs[i];
    }
  }

  /** When every group builds its chunk, the assembly of `gs` succeeds with those chunks. */
  lemma {:induction false} BuildAllOk(nodes: seq<Node>, gs: seq<Group>, chunks: seq<Chunk>, isNoDoc: string -> bool)
    requires forall i :: 0 <= i < |gs| ==> InRange(nodes, gs[i])
    requires ChunksOf(nodes, gs, chunks, isNoDoc)
    ensures BuildAll(nodes, gs, isNoDoc) == Ok(chunks)
  {
    if gs != [] {
      var n := |gs| - 1;
      ChunksOfInit(nodes, gs, chunks, isNoDoc);
      BuildAllOk(nodes, gs[..n], chunks[..n], isNoDoc);
      BuildAllUnfold(nodes, gs, chunks, isNoDoc);
    }
  }

  /** The indices the loop holds after `k` nodes are all in range. */
  lemma RunInRange(nodes: seq<Node>, k: nat)
    requires k <= |nodes|
    ensures forall i :: 0 <= i < |Run(nodes, k).groups| ==> InRange(nodes, Run(nodes, k).groups[i])
    ensures forall i :: 0 <= i < |Run(nodes, k).pending| ==> Run(nodes, k).pending[i] < k
  {
    RunInv(nodes, k);
    var st := Run(nodes, k);
    forall i | 0 <= i < |st.groups|
      ensures InRange(nodes, st.groups[i])
    {
      assert GoodGroup(nodes, st.groups[i]);
    }
  }

  /**
   * The chunks emitted up to node `k` are the first chunks of the file; if
   * the one emitted at `k` fails, the whole assembly fails with it.
   */
  lemma EmitStep(nodes: seq<Node>, k: nat, isNoDoc: string -> bool)
    requires k < |nodes| && EmitsAt(nodes, k)
    requires forall i :: 0 <= i < |Run(nodes, k).groups| ==> InRange(nodes, Run(nodes, k).groups[i])
    requires BuildAll(nodes, Run(nodes, k).groups, isNoDoc).Ok?
    ensures InRange(nodes, Group(Run(nodes, k).pending, k))
    ensures BuildChunk(nodes, Group(Run(nodes, k).pending, k), isNoDoc).Err? ==>
      AssembleSpec(nodes, isNoDoc) == Err(BuildChunk(nodes, Group(Run(nodes, k).pending, k), isNoDoc).error)
  {
    var st := Run(nodes, k);
    var g := Group(st.pending, k);
    RunInRange(nodes, k);
    EmitAdvance(nodes, k);
    if BuildChunk(nodes, g, isNoDoc).Err? {
      BuildAllSnoc(nodes, st.groups, g, isNoDoc);
      RunGrows(nodes, k + 1, |nodes|);
      RunInRange(nodes, |nodes|);
      var gs := Run(nodes, |nodes|).groups;
      var next := Run(nodes, k + 1).groups;
      assert next == st.groups + [g];
      assert gs[..|next|] == next;
      BuildAllKeepsFailure(nodes, gs, |next|, isNoDoc);
    }
  }

  /** A comment node extends the pending run, or starts a new one after a gap. */
  lemma CommentAdvance(nodes: seq<Node>, k: nat)
    requires k < |nodes| && IsComment(nodes[k])
    ensures Run(nodes, k + 1).groups == Run(nodes, k).groups
    ensures Run(nodes, k + 1).prev == Some(nodes[k].startLine)
    ensures Run(nodes, k + 1).pending ==
      (if Run(nodes, k).prev.Some? && nodes[k].startLine != Run(nodes, k).prev.value + 1 then []
       else Run(nodes, k).pending) + [k]
  {
    RunStep(nodes, k);
  }

  /** Emitting at `k` adds the group of the pending run and clears the state. */
  lemma EmitAdvance(nodes: seq<Node>, k: nat)
    requires k < |nodes| && EmitsAt(nodes, k)
    ensures Run(nodes, k + 1) == AsmState([], None, Run(nodes, k).groups + [Group(Run(nodes, k).pending, k)])
  {
    RunStep(nodes, k);
  }

  lemma NodesAtSnoc(nodes: seq<Node>, idx: seq<nat>, k: nat)
    requires forall i :: 0 <= i < |idx| ==> idx[i] < |nodes|
    requires k < |nodes|
    ensures NodesAt(nodes, idx + [k]) == NodesAt(nodes, idx) + [nodes[k]]
  {
  }

  /** The loop's variables hold the state `st` reached after `k` nodes, and `chunks` are the chunks of its groups. */
  ghost predicate Tracks(nodes: seq<Node>, st: AsmState, k: nat, comments: seq<Node>, prevLine: Option<nat>,
                         chunks: seq<Chunk>, isNoDoc: string -> bool) {
    && k <= |nodes|
    && (forall i :: 0 <= i < |st.groups| ==> InRange(nodes, st.groups[i]))
    && (forall i :: 0 <= i < |st.pending| ==> st.pending[i] < k)
    && comments == NodesAt(nodes, st.pending)
    && prevLine == st.prev
    && ChunksOf(nodes, st.groups, chunks, isNoDoc)
  }

  /** A comment node: the loop's update of `comments` and `prev_line` follows `Step`. */
  lemma CommentTracks(nodes: seq<Node>, k: nat, comments: seq<Node>, prevLine: Option<nat>,
                      chunks: seq<Chunk>, isNoDoc: string -> bool)
    requires k < |nodes| && IsComment(nodes[k])
    requires Tracks(nodes, Run(nodes, k), k, comments, prevLine, chunks, isNoDoc)
    ensures Tracks(nodes, Run(nodes, k + 1), k + 1,
                   (if prevLine.Some? && nodes[k].startLine != prevLine.value + 1 then [] else comments) + [nodes[k]],
                   Some(nodes[k].startLine), chunks, isNoDoc)
  {
    var st := Run(nodes, k);
    CommentAdvance(nodes, k);
    var kept := if st.prev.Some? && nodes[k].startLine != st.prev.value + 1 then [] else st.pending;
    NodesAtSnoc(nodes, kept, k);
  }

  /** An emitting node: the assembly fails with the chunk's failure, or the chunk is appended. */
  lemma EmitTracks(nodes: seq<Node>, k: nat, comments: seq<Node>, prevLine: Option<nat>,
                   chunks: seq<Chunk>, isNoDoc: string -> bool)
    requires k < |nodes| && !IsComment(nodes[k])
    requires prevLine.Some? && nodes[k].startLine == prevLine.value + 1
    requires Tracks(nodes, Run(nodes, k), k, comments, prevLine, chunks, isNoDoc)
    ensures ParseResult(comments, isNoDoc).Err? ==>
      AssembleSpec(nodes, isNoDoc) == Err(ParseResult(comments, isNoDoc).error)
    ensures ParseResult(comments, isNoDoc).Ok? && NodeToDecl(nodes[k]).Err? ==>
      AssembleSpec(nodes, isNoDoc) == Err(NodeToDecl(nodes[k]).error)
    ensures ParseResult(comments, isNoDoc).Ok? && NodeToDecl(nodes[k]).Ok? ==>
      var parsed := ParseResult(comments, isNoDoc).value;
      Tracks(nodes, Run(nodes, k + 1), k + 1, [], None,
             chunks + [Chunk(parsed.0, parsed.1, NodeToDecl(nodes[k]).value)], isNoDoc)
  {
    var st := Run(nodes, k);
    var g := Group(st.pending, k);
    BuildAllOk(nodes, st.groups, chunks, isNoDoc);
    EmitAdvance(nodes, k);
    EmitStep(nodes, k, isNoDoc);
    RunInRange(nodes, k + 1);
    var next := Run(nodes, k + 1).groups;
    assert next == st.groups + [g];
    if BuildChunk(nodes, g, isNoDoc).Ok? {
      var c := BuildChunk(nodes, g, isNoDoc).value;
      assert ChunksOf(nodes, next, chunks + [c], isNoDoc) by {
        forall i | 0 <= i < |next|
          ensures BuildChunk(nodes, next[i], isNoDoc) == Ok((chunks + [c])[i])
        {
          if i < |st.groups| { assert next[i] == st.groups[i]; }
        }
      }
    }
  }

  /** Any other node: nothing is emitted, and an empty run is reset. */
  lemma IdleTracks(nodes: seq<Node>, k: nat, comments: seq<Node>, prevLine: Option<nat>,
                   chunks: seq<Chunk>, isNoDoc: string -> bool)
    requires k < |nodes| && !IsComment(nodes[k])
    requires !(prevLine.Some? && nodes[k].startLine == prevLine.value + 1)
    requires Tracks(nodes, Run(nodes, k), k, comments, prevLine, chunks, isNoDoc)
    ensures Tracks(nodes, Run(nodes, k + 1), k + 1, if prevLine.None? then [] else comments, prevLine, chunks, isNoDoc)
  {
    NonAdjacentNodeEmitsNothing(nodes, k);
  }

  /** The assembly loop over the top-level nodes of a file. */
  method AssembleChunks(nodes: seq<Node>, isNoDoc: string -> bool) returns (r: Result<seq<Chunk>, Panic>)
    ensures r == AssembleSpec(nodes, isNoDoc)
  {
    var chunks: seq<Chunk> := [];
    var comments: seq<Node> := [];
    var prevLine: Option<nat> := None;
    var k := 0;
    while k < |nodes|
      invariant 0 <= k <= |nodes|
      invariant Tracks(nodes, Run(nodes, k), k, comments, prevLine, chunks, isNoDoc)
    {
      var child := nodes[k];
      var startLine := child.startLine;
      if child.kind == "comment" {
        CommentTracks(nodes, k, comments, prevLine, chunks, isNoDoc);
        if prevLine.Some? && startLine != prevLine.value + 1 {
          comments := [];
        }
        comments := comments + [child];
        prevLine := Some(startLine);
      } else if prevLine.Some? && startLine == prevLine.value + 1 {
        EmitTracks(nodes, k, comments, prevLine, chunks, isNoDoc);
        var parsed := ParseComments(comments, isNoDoc);
        if parsed.Err? {
          return Err(parsed.error);
        }
        var decl := NodeToDecl(child);
        if decl.Err? {
          return Err(decl.error);
        }
        var chunk := Chunk(parsed.value.0, parsed.value.1, decl.value);
        chunks := chunks + [chunk];
        comments := [];
        prevLine := None;
      } else {
        IdleTracks(nodes, k, comments, prevLine, chunks, isNoDoc);
        if prevLine.None? {
          comments := [];
        }
      }
      k := k + 1;
    }
    RunInRange(nodes, |nodes|);
    BuildAllOk(nodes, Run(nodes, |nodes|).groups, chunks, isNoDoc);
    return Ok(chunks);
  }

  // ---- properties of the assembly ----

  /** Chunks follow the file: every group lies after the declaration of each earlier group. */
  lemma {:induction false} AssembledInOrder(nodes: seq<Node>, i: nat, j: nat)
    requires i < j < |Groups(nodes)|
    ensures |Groups(nodes)[j].comments| > 0 && Groups(nodes)[i].decl < Groups(nodes)[j].comments[0]
    ensures Groups(nodes)[i].decl < Groups(nodes)[j].decl
    decreases j - i
  {
    var gs := Groups(nodes);
    GroupsWellFormed(nodes);
    if j > i + 1 {
      AssembledInOrder(nodes, i, j - 1);
      assert GoodGroup(nodes, gs[j - 1]);
    }
    assert GoodGroup(nodes, gs[j]);
  }

  /** A comment whose line is not right after the previous one starts a new run. */
  lemma GapBreaksRun(nodes: seq<Node>, k: nat)
    requires k < |nodes| && IsComment(nodes[k])
    requires Run(nodes, k).prev.Some? && nodes[k].startLine != Run(nodes, k).prev.value + 1
    ensures Run(nodes, k + 1).pending == [k]
  {
  }

  /** A node that does not start right after the pending run leaves the state alone, or resets it when nothing is pending. */
  lemma NonAdjacentNodeEmitsNothing(nodes: seq<Node>, k: nat)
    requires k < |nodes| && !IsComment(nodes[k]) && !EmitsAt(nodes, k)
    ensures Run(nodes, k).prev.Some? ==> Run(nodes, k + 1) == Run(nodes, k)
    ensures Run(nodes, k).prev.None? ==> Run(nodes, k + 1) == AsmState([], None, Run(nodes, k).groups)
  {
  }

  /** Every assembled chunk carries no alias attribute. */
  lemma {:induction false} AssembledHaveNoAlias(nodes: seq<Node>, gs: seq<Group>, isNoDoc: string -> bool)
    requires forall i :: 0 <= i < |gs| ==> InRange(nodes, gs[i])
    requires BuildAll(nodes, gs, isNoDoc).Ok?
    ensures var cs := BuildAll(nodes, gs, isNoDoc).value;
      forall i, k :: 0 <= i < |cs| && 0 <= k < |cs[i].attributes| ==> !cs[i].attributes[k].Alias?
  {
    if gs != [] {
      var init := gs[..|gs| - 1];
      AssembledHaveNoAlias(nodes, init, isNoDoc);
      var g := gs[|gs| - 1];
      var lines := Kept(NodesAt(nodes, g.comments));
      NoAliasAttrs(lines, isNoDoc);
    }
  }
}
