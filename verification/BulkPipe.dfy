/**
 The bulk-IN side of the camera: handlers append containers to one buffer, and the
 transfer splitter serves that buffer out in whatever transfer sizes the host asks for
 (`src/vcamera.c`, `src/usbthing.c`).
 */
module BulkPipe {
  import opened Bytes
  import opened Containers

  /** `inbulk[..nrinbulk]` and the splitter's `last_length`. */
  datatype Pipe = Pipe(inbulk: seq<byte>, last: nat)

  const EMPTY := Pipe([], 0)

  /**
   What the splitter relies on: a fresh container needs its four length bytes in the
   buffer and room for them in the transfer, and a sane length field; one in progress, the
   bytes that the transfer takes.
   */
  predicate MayServe(p: Pipe, len: nat)
  {
    if p.last == 0 then
      |p.inbulk| >= 4 && len >= 4 && 4 <= Get32(p.inbulk) <= Min(|p.inbulk|, INT_MAX)
    else
      Min(p.last, len) <= |p.inbulk|
  }

  function Size(p: Pipe, len: nat): nat
    requires MayServe(p, len)
  {
    Min(if p.last == 0 then Get32(p.inbulk) else p.last, len)
  }

  function Chunk(p: Pipe, len: nat): seq<byte>
    requires MayServe(p, len)
  {
    p.inbulk[..Size(p, len)]
  }

  function Serve(p: Pipe, len: nat): Pipe
    requires MayServe(p, len)
  {
    var n := Size(p, len);
    Pipe(p.inbulk[n..], (if p.last == 0 then Get32(p.inbulk) else p.last) - n)
  }

  // ---- One step against a queue of containers ------------------------------------------

  /** The unserved bytes of the container being served, then whole containers. */
  ghost predicate Holds(p: Pipe, current: seq<byte>, waiting: seq<Block>)
  {
    p.last == |current| && p.inbulk == current + Flatten(waiting)
  }

  lemma FrontIsServable(p: Pipe, current: seq<byte>, waiting: seq<Block>, len: nat)
    requires Holds(p, current, waiting) && p.inbulk != [] && (current == [] ==> len >= 4)
    ensures MayServe(p, len)
    ensures current == [] ==> waiting != [] && Get32(p.inbulk) == |waiting[0]|
  {
    if current == [] {
      GetLength(waiting[0], Flatten(waiting[1..]));
    }
  }

  lemma FrontSplits(front: seq<byte>, after: seq<byte>, n: nat)
    requires n <= |front|
    ensures (front + after)[..n] == front[..n] && (front + after)[n..] == front[n..] + after && front == front[..n] + front[n..]
  {
  }

  /** Transfers take from the container in front only, and never more than it has left. */
  lemma ServeFromFront(p: Pipe, current: seq<byte>, waiting: seq<Block>, len: nat)
    requires Holds(p, current, waiting) && p.inbulk != [] && MayServe(p, len)
    ensures current == [] ==> waiting != []
    ensures var front := if current == [] then waiting[0] else current;
            var n := Min(|front|, len);
            Size(p, len) == n && Chunk(p, len) == front[..n] && front == Chunk(p, len) + front[n..]
    ensures var front := if current == [] then waiting[0] else current;
            Holds(Serve(p, len), front[Min(|front|, len)..], if current == [] then waiting[1..] else waiting)
  {
    if current == [] {
      GetLength(waiting[0], Flatten(waiting[1..]));
    }
    var front := if current == [] then waiting[0] else current;
    var after := if current == [] then waiting[1..] else waiting;
    assert p.inbulk == front + Flatten(after);
    hide Flatten, Get32, MayServe;
    FrontSplits(front, Flatten(after), Min(|front|, len));
  }

  // ---- Whole runs ----------------------------------------------------------------------

  datatype Action = Append(c: Block) | Transfer(len: nat)

  /** `chunks` are the transfers the host saw, `appended` what the handlers sent. */
  datatype History = History(pipe: Pipe, appended: seq<Block>, chunks: seq<seq<byte>>)

  function Step(h: History, a: Action): Option<History>
  {
    match a
    case Append(c) => Some(h.(pipe := h.pipe.(inbulk := h.pipe.inbulk + c), appended := h.appended + [c]))
    case Transfer(len) =>
      if h.pipe.inbulk == [] || !MayServe(h.pipe, len) then None
      else Some(h.(pipe := Serve(h.pipe, len), chunks := h.chunks + [Chunk(h.pipe, len)]))
  }

  /** Runs from the empty buffer; None once a transfer breaks the splitter's terms. */
  function Run(actions: seq<Action>): Option<History>
  {
    if actions == [] then
      Some(History(EMPTY, [], []))
    else
      match Run(actions[..|actions| - 1])
      case None => None
      case Some(h) => Step(h, actions[|actions| - 1])
  }

  /** Group by group the transfers put together are the first containers. */
  ghost predicate Grouped(groups: seq<seq<seq<byte>>>, appended: seq<Block>)
  {
    |groups| <= |appended| && forall i :: 0 <= i < |groups| ==> Flatten(groups[i]) == appended[i]
  }

  /** The transfers fall into one group for each container, in the containers' order. */
  ghost predicate ContainerByContainer(h: History, groups: seq<seq<seq<byte>>>, open: seq<seq<byte>>, rest: seq<byte>)
  {
    && h.chunks == Flatten(groups) + open
    && Grouped(groups, h.appended)
    && if rest == [] then
         open == [] && Holds(h.pipe, [], h.appended[|groups|..])
       else
         && |groups| < |h.appended|
         && Flatten(open) + rest == h.appended[|groups|]
         && Holds(h.pipe, rest, h.appended[|groups| + 1..])
  }

  /**
   For every interleaving of appends and transfers, no transfer mixes two containers, the
   transfers of a container put together are that container, and what is left in the
   buffer is the unserved end of the container in progress followed by whole containers.
   */
  lemma {:induction false} RunServesContainers(actions: seq<Action>)
    returns (groups: seq<seq<seq<byte>>>, open: seq<seq<byte>>, rest: seq<byte>)
    requires Run(actions).Some?
    ensures ContainerByContainer(Run(actions).value, groups, open, rest)
  {
    groups, open, rest := [], [], [];
    if actions == [] {
    } else {
      var n := |actions| - 1;
      groups, open, rest := RunServesContainers(actions[..n]);
      var h := Run(actions[..n]).value;
      match actions[n]
      case Append(c) =>
        AppendKeepsGroups(h, c, groups, open, rest);
      case Transfer(len) =>
        groups, open, rest := TransferExtendsGroups(h, len, groups, open, rest);
    }
  }

  lemma SuffixSnoc(bs: seq<Block>, k: nat, c: Block)
    requires k <= |bs|
    ensures (bs + [c])[k..] == bs[k..] + [c]
  {
  }

  lemma AppendKeepsGroups(h: History, c: Block, groups: seq<seq<seq<byte>>>, open: seq<seq<byte>>, rest: seq<byte>)
    requires ContainerByContainer(h, groups, open, rest)
    ensures ContainerByContainer(Step(h, Append(c)).value, groups, open, rest)
  {
    hide Flatten, IsBlock;
    var k := |groups| + if rest == [] then 0 else 1;
    FlattenSnoc(h.appended[k..], c);
    SuffixSnoc(h.appended, k, c);
    assert rest + (Flatten(h.appended[k..]) + c) == rest + Flatten(h.appended[k..]) + c;
  }

  lemma TransferExtendsGroups(h: History, len: nat, groups: seq<seq<seq<byte>>>, open: seq<seq<byte>>, rest: seq<byte>)
    returns (groups': seq<seq<seq<byte>>>, open': seq<seq<byte>>, rest': seq<byte>)
    requires ContainerByContainer(h, groups, open, rest)
    requires h.pipe.inbulk != [] && MayServe(h.pipe, len)
    ensures ContainerByContainer(Step(h, Transfer(len)).value, groups', open', rest')
  {
    hide *;
    var front := InFront(h, len, groups, open, rest);
    StepServes(h, len);
    rest' := front[|Chunk(h.pipe, len)|..];
    groups', open' := Regrouped(Step(h, Transfer(len)).value, groups, open, Chunk(h.pipe, len), rest');
  }

  /** The container being served, or the next one: a transfer is its beginning. */
  lemma InFront(h: History, len: nat, groups: seq<seq<seq<byte>>>, open: seq<seq<byte>>, rest: seq<byte>)
    returns (front: seq<byte>)
    requires ContainerByContainer(h, groups, open, rest)
    requires h.pipe.inbulk != [] && MayServe(h.pipe, len)
    ensures var k, n := |groups|, |Chunk(h.pipe, len)|;
            && h.chunks == Flatten(groups) + open && Grouped(groups, h.appended) && k < |h.appended|
            && n <= |front| && front == Chunk(h.pipe, len) + front[n..] && Flatten(open) + front == h.appended[k]
            && Holds(Serve(h.pipe, len), front[n..], h.appended[k + 1..])
  {
    hide *;
    GroupParts(h, groups, open, rest);
    var waiting := PipeHolds(h, groups, open, rest);
    ServeFromFront(h.pipe, rest, waiting, len);
    if rest == [] {
      FirstApart(h.appended, |groups|);
      front := h.appended[|groups|];
      NothingYet(open, front);
    } else {
      front := rest;
    }
  }

  lemma NothingYet(open: seq<seq<byte>>, front: seq<byte>)
    requires open == []
    ensures Flatten(open) + front == front
  {
  }

  /** One more transfer of container number `k`, which may be the last. */
  lemma Regrouped(h: History, groups: seq<seq<seq<byte>>>, open: seq<seq<byte>>, chunk: seq<byte>, rest: seq<byte>)
    returns (groups': seq<seq<seq<byte>>>, open': seq<seq<byte>>)
    requires Grouped(groups, h.appended) && |groups| < |h.appended|
    requires h.chunks == Flatten(groups) + open + [chunk]
    requires Flatten(open) + (chunk + rest) == h.appended[|groups|]
    requires Holds(h.pipe, rest, h.appended[|groups| + 1..])
    ensures ContainerByContainer(h, groups', open', rest)
  {
    hide *;
    OneMoreChunk(groups, open, chunk, rest, h.appended[|groups|]);
    if rest == [] {
      groups', open' := groups + [open + [chunk]], [];
      OneMoreGroup(groups, open + [chunk], h.appended);
      NothingOpen(groups');
    } else {
      groups', open' := groups, open + [chunk];
    }
    GroupWhole(h, groups', open', rest);
  }

  lemma StepServes(h: History, len: nat)
    requires h.pipe.inbulk != [] && MayServe(h.pipe, len)
    ensures Step(h, Transfer(len)) == Some(h.(pipe := Serve(h.pipe, len), chunks := h.chunks + [Chunk(h.pipe, len)]))
  {
  }

  lemma NothingOpen(groups: seq<seq<seq<byte>>>)
    ensures Flatten(groups) + [] == Flatten(groups)
  {
  }

  /** What it says that the transfers fall into groups. */
  lemma GroupParts(h: History, groups: seq<seq<seq<byte>>>, open: seq<seq<byte>>, rest: seq<byte>)
    requires ContainerByContainer(h, groups, open, rest)
    ensures h.chunks == Flatten(groups) + open && |groups| <= |h.appended| && Grouped(groups, h.appended)
    ensures rest == [] ==> open == [] && Holds(h.pipe, [], h.appended[|groups|..])
    ensures rest != [] ==> |groups| < |h.appended| && Flatten(open) + rest == h.appended[|groups|]
                           && Holds(h.pipe, rest, h.appended[|groups| + 1..])
  {
    hide Holds, Flatten;
  }

  lemma GroupWhole(h: History, groups: seq<seq<seq<byte>>>, open: seq<seq<byte>>, rest: seq<byte>)
    requires h.chunks == Flatten(groups) + open && |groups| <= |h.appended| && Grouped(groups, h.appended)
    requires rest == [] ==> open == [] && Holds(h.pipe, [], h.appended[|groups|..])
    requires rest != [] ==> |groups| < |h.appended| && Flatten(open) + rest == h.appended[|groups|]
                            && Holds(h.pipe, rest, h.appended[|groups| + 1..])
    ensures ContainerByContainer(h, groups, open, rest)
  {
    hide Holds, Flatten;
  }

  lemma OneMoreGroup(groups: seq<seq<seq<byte>>>, g: seq<seq<byte>>, appended: seq<Block>)
    requires Grouped(groups, appended) && |groups| < |appended| && Flatten(g) == appended[|groups|]
    ensures Grouped(groups + [g], appended) && |groups + [g]| == |groups| + 1
  {
    hide Flatten;
  }

  lemma FirstApart(bs: seq<Block>, k: nat)
    requires k <= |bs|
    ensures bs[k..] != [] ==> k < |bs| && bs[k..][0] == bs[k] && bs[k..][1..] == bs[k + 1..]
  {
  }

  lemma OneMoreChunk(groups: seq<seq<seq<byte>>>, open: seq<seq<byte>>, chunk: seq<byte>, rest: seq<byte>, b: seq<byte>)
    requires Flatten(open) + (chunk + rest) == b
    ensures Flatten(open + [chunk]) + rest == b
    ensures Flatten(groups) + open + [chunk] == Flatten(groups) + (open + [chunk])
    ensures rest == [] ==> Flatten(groups) + open + [chunk] == Flatten(groups + [open + [chunk]])
    ensures rest == [] ==> Flatten(open + [chunk]) == b
  {
    FlattenSnoc(open, chunk);
    FlattenSnoc(groups, open + [chunk]);
  }

  /** Nothing is lost, repeated or reordered on the way. */
  lemma {:induction false} RunConserves(actions: seq<Action>)
    requires Run(actions).Some?
    ensures var h := Run(actions).value;
            Flatten(h.chunks) + h.pipe.inbulk == Flatten(h.appended)
  {
    if actions == [] {
    } else {
      hide Flatten;
      var n := |actions| - 1;
      RunConserves(actions[..n]);
      StepConserves(Run(actions[..n]).value, actions[n]);
    }
  }

  lemma StepConserves(h: History, a: Action)
    requires Flatten(h.chunks) + h.pipe.inbulk == Flatten(h.appended) && Step(h, a).Some?
    ensures var h' := Step(h, a).value; Flatten(h'.chunks) + h'.pipe.inbulk == Flatten(h'.appended)
  {
    hide Flatten, MayServe, Size, Chunk, Serve;
    match a
    case Append(c) =>
      FlattenSnoc(h.appended, c);
    case Transfer(len) =>
      FlattenSnoc(h.chunks, Chunk(h.pipe, len));
      NothingSkipped(h.pipe, len);
      assert Flatten(h.chunks) + Chunk(h.pipe, len) + Serve(h.pipe, len).inbulk
          == Flatten(h.chunks) + (Chunk(h.pipe, len) + Serve(h.pipe, len).inbulk);
  }

  lemma NothingSkipped(p: Pipe, len: nat)
    requires MayServe(p, len)
    ensures Chunk(p, len) + Serve(p, len).inbulk == p.inbulk
  {
  }

  /** A host that reads four bytes or more while bytes are pending is always served. */
  lemma PendingIsServed(actions: seq<Action>, len: nat)
    requires Run(actions).Some? && Run(actions).value.pipe.inbulk != [] && len >= 4
    ensures Run(actions + [Transfer(len)]).Some?
    ensures Chunk(Run(actions).value.pipe, len) != []
  {
    hide ContainerByContainer, MayServe, Size, Chunk, Serve;
    var groups, open, rest := RunServesContainers(actions);
    var h := Run(actions).value;
    var waiting := PipeHolds(h, groups, open, rest);
    FrontIsServable(h.pipe, rest, waiting, len);
    ServeFromFront(h.pipe, rest, waiting, len);
    assert (actions + [Transfer(len)])[..|actions|] == actions;
  }

  lemma PipeHolds(h: History, groups: seq<seq<seq<byte>>>, open: seq<seq<byte>>, rest: seq<byte>) returns (waiting: seq<Block>)
    requires ContainerByContainer(h, groups, open, rest)
    ensures |groups| <= |h.appended| && waiting == h.appended[|groups| + if rest == [] then 0 else 1..]
    ensures Holds(h.pipe, rest, waiting)
  {
    waiting := h.appended[|groups| + if rest == [] then 0 else 1..];
    hide Holds, Flatten;
  }

  // ---- Two cameras ------------------------------------------------------------------------

  /**
   The splitter has one `last_length` for all cameras. Let a camera be between containers
   while `last` bytes of another camera's container are unserved. A transfer from it stays
   within its front container exactly if the transfer is no longer than that container.
   */
  lemma OtherCameraMixesIff(inbulk: seq<byte>, last: nat, waiting: seq<Block>, len: nat)
    requires Holds(Pipe(inbulk, 0), [], waiting) && waiting != []
    requires 0 < last && MayServe(Pipe(inbulk, last), len)
    ensures Chunk(Pipe(inbulk, last), len) <= waiting[0] <==> Min(last, len) <= |waiting[0]|
  {
    var front, n, after := waiting[0], Min(last, len), Flatten(waiting[1..]);
    assert inbulk == front + after;
    hide Flatten;
    if n <= |front| {
      FrontSplits(front, after, n);
    }
  }

  /**
   And the camera's stream keeps its shape, an unserved part of something and then whole
   containers, exactly if the other camera's rest is as long as some of its containers.
   */
  lemma OtherCameraIff(inbulk: seq<byte>, last: nat, waiting: seq<Block>, len: nat)
    requires Holds(Pipe(inbulk, 0), [], waiting)
    requires 0 < last && MayServe(Pipe(inbulk, last), len)
    ensures (exists j, current :: 0 <= j <= |waiting| && Holds(Serve(Pipe(inbulk, last), len), current, waiting[j..]))
            <==> exists j :: 1 <= j <= |waiting| && last == |Flatten(waiting[..j])|
  {
    hide *;
    var p := Serve(Pipe(inbulk, last), len);
    forall j, current | 0 <= j <= |waiting| && Holds(p, current, waiting[j..])
      ensures 1 <= j && last == |Flatten(waiting[..j])|
    {
      RestEndsAt(inbulk, last, waiting, len, j, current);
    }
    forall j | 1 <= j <= |waiting| && last == |Flatten(waiting[..j])|
      ensures exists current :: Holds(p, current, waiting[j..])
    {
      WholeContainers(inbulk, last, waiting, len, j);
    }
  }

  /**
   Two responses are waiting. While 20 bytes of the other camera are unserved, one transfer
   takes the first response and 8 bytes of the second, and no container boundary is found
   again; with 24 bytes it takes both, and the stream is in shape.
   */
  lemma OtherCameraSpoils(c: Block, len: nat)
    requires |c| == 12 && len >= 24
    ensures var p, q := Pipe(c + c, 20), Pipe(c + c, 24);
            && Holds(Pipe(c + c, 0), [], [c, c]) && MayServe(p, len) && MayServe(q, len)
            && !(Chunk(p, len) <= c)
            && !(exists j, current :: 0 <= j <= 2 && Holds(Serve(p, len), current, [c, c][j..]))
            && (exists j, current :: 0 <= j <= 2 && Holds(Serve(q, len), current, [c, c][j..]))
  {
    var w: seq<Block> := [c, c];
    TwoBlocks(c);
    hide Flatten, IsBlock;
    OtherCameraMixesIff(c + c, 20, w, len);
    OtherCameraIff(c + c, 20, w, len);
    OtherCameraIff(c + c, 24, w, len);
    assert 24 == |Flatten(w[..2])|;
  }

  lemma TwoBlocks(c: Block)
    ensures var w: seq<Block> := [c, c];
            && Flatten(w) == c + c && w[0] == c
            && |Flatten(w[..0])| == 0 && |Flatten(w[..1])| == |c| && |Flatten(w[..2])| == 2 * |c|
  {
    var w: seq<Block> := [c, c];
    assert w[..2] == w && w[..1] == [c] && w == [c] + [c];
    FlattenSnoc([c], c);
    assert Flatten([c]) == c + Flatten<byte>([]);
  }

  lemma RestEndsAt(inbulk: seq<byte>, last: nat, waiting: seq<Block>, len: nat, j: nat, current: seq<byte>)
    requires Holds(Pipe(inbulk, 0), [], waiting) && j <= |waiting|
    requires 0 < last && MayServe(Pipe(inbulk, last), len)
    requires Holds(Serve(Pipe(inbulk, last), len), current, waiting[j..])
    ensures 1 <= j && last == |Flatten(waiting[..j])|
  {
    FlattenSplit(waiting, j);
    assert Flatten(waiting[..0]) == [];
  }

  lemma WholeContainers(inbulk: seq<byte>, last: nat, waiting: seq<Block>, len: nat, j: nat)
    requires Holds(Pipe(inbulk, 0), [], waiting) && j <= |waiting|
    requires 0 < last == |Flatten(waiting[..j])| && MayServe(Pipe(inbulk, last), len)
    ensures exists current :: Holds(Serve(Pipe(inbulk, last), len), current, waiting[j..])
  {
    FlattenSplit(waiting, j);
    hide Flatten;
    assert Holds(Serve(Pipe(inbulk, last), len), inbulk[Min(last, len)..last], waiting[j..]);
  }

  // ---- How many transfers a container takes --------------------------------------------

  /** The transfers of size `len` that finish the container being served. */
  function Rest(p: Pipe, len: nat): (chunks: seq<seq<byte>>)
    requires len > 0 && p.last <= |p.inbulk|
    decreases p.last
  {
    if p.last == 0 then [] else [Chunk(p, len)] + Rest(Serve(p, len), len)
  }

  lemma {:induction false} RestCount(p: Pipe, len: nat, current: seq<byte>, waiting: seq<Block>)
    requires len > 0 && Holds(p, current, waiting) && current != []
    ensures var n := |Rest(p, len)|; (n - 1) * len < |current| <= n * len
    ensures Flatten(Rest(p, len)) == current
    decreases |current|
  {
    FrontIsServable(p, current, waiting, len);
    ServeFromFront(p, current, waiting, len);
    hide MayServe, Size, Chunk, Serve;
    var q := Serve(p, len);
    if |current| <= len {
      assert Rest(q, len) == [];
      assert Rest(p, len) == [Chunk(p, len)];
    } else {
      RestCount(q, len, current[len..], waiting);
      assert Flatten(Rest(p, len)) == current;
      OneMore(|Rest(q, len)|, len, |current|);
    }
  }

  lemma OneMore(m: nat, len: nat, size: nat)
    requires (m - 1) * len < size - len <= m * len
    ensures m * len < size <= (m + 1) * len
  {
  }

  /** A container of L bytes leaves in ceil(L / len) transfers of size `len`. */
  lemma ContainerTakesCeil(c: Block, waiting: seq<Block>, len: nat)
    requires len >= 4
    ensures var p := Pipe(Flatten([c] + waiting), 0);
            && MayServe(p, len)
            && (Serve(p, len).last <= |Serve(p, len).inbulk|)
            && var chunks := [Chunk(p, len)] + Rest(Serve(p, len), len);
            && (|chunks| - 1) * len < |c| <= |chunks| * len
            && Flatten(chunks) == c
  {
    var p := Pipe(Flatten([c] + waiting), 0);
    assert ([c] + waiting)[1..] == waiting;
    FrontIsServable(p, [], [c] + waiting, len);
    ServeFromFront(p, [], [c] + waiting, len);
    hide MayServe, Size, Chunk, Serve;
    var q := Serve(p, len);
    if q.last == 0 {
      assert Rest(q, len) == [];
    } else {
      RestCount(q, len, c[len..], waiting);
      OneMore(|Rest(q, len)|, len, |c|);
      assert Flatten([Chunk(p, len)] + Rest(q, len)) == c;
    }
  }

  lemma SplitAtFour(d: seq<byte>, max: nat)
    requires 4 <= max <= |d|
    ensures d[..max] == d[..4] + d[4..][..max - 4] && d[4..][max - 4..] == d[max..]
  {
  }

  // ---- The camera's side ---------------------------------------------------------------

  class BulkIn {
    var inbulk: seq<byte>
    var seqnr: u32
    var lastLength: nat

    /** Every container the handlers ever sent, and what of it the host has not been given yet. */
    ghost var sent: seq<Packet>
    ghost var current: seq<byte>
    ghost var waiting: seq<Block>

    ghost predicate Valid()
      reads this
    {
      Holds(State(), current, waiting)
    }

    ghost function State(): Pipe
      reads this
    {
      Pipe(inbulk, lastLength)
    }

    constructor ()
      ensures Valid() && State() == EMPTY && sent == [] && seqnr == 0
    {
      inbulk, seqnr, lastLength := [], 0, 0;
      sent, current, waiting := [], [], [];
    }

    /** Queues a data container under the current transaction id. */
    method SendData(code: u16, data: seq<byte>)
      requires Valid() && 12 + |data| <= INT_MAX
      modifies this
      ensures Valid() && lastLength == old(lastLength) && seqnr == old(seqnr)
      ensures sent == old(sent) + [Container(DATA, code, old(seqnr), data)]
      ensures inbulk == old(inbulk) + Encode(Container(DATA, code, old(seqnr), data))
    {
      hide Header, IsBlock, Flatten;
      var size := |data| + 12;
      ghost var c: Packet := Container(DATA, code, seqnr, data);
      EncodeIsBlock(c);
      FlattenSnoc(waiting, Encode(c));
      inbulk := inbulk + (Header(size, DATA, code, seqnr) + data);
      sent, waiting := sent + [c], waiting + [Encode(c)];
    }

    /** Queues the response container and moves on to the next transaction id. */
    method Response(code: u16, params: seq<u32>)
      requires Valid() && |params| <= 5
      modifies this
      ensures Valid() && lastLength == old(lastLength)
      ensures seqnr == (old(seqnr) + 1) % 0x1_0000_0000
      ensures sent == old(sent) + [Container(RESPONSE, code, old(seqnr), Words(params))]
      ensures inbulk == old(inbulk) + Encode(Container(RESPONSE, code, old(seqnr), Words(params)))
    {
      hide Header, IsBlock;
      ghost var c: Packet := Container(RESPONSE, code, seqnr, Words(params));
      EncodeIsBlock(c);
      FlattenSnoc(waiting, Encode(c));
      hide Flatten, Words;
      inbulk := inbulk + Header(12 + 4 * |params|, RESPONSE, code, seqnr);
      AppendParams(params);
      assert inbulk == old(inbulk) + Encode(c);
      hide Encode;
      sent, waiting := sent + [c], waiting + [Encode(c)];
      seqnr := (seqnr + 1) % 0x1_0000_0000;
    }

    method AppendParams(params: seq<u32>)
      modifies this`inbulk
      ensures inbulk == old(inbulk) + Words(params)
    {
      for i := 0 to |params|
        invariant inbulk == old(inbulk) + Words(params[..i])
      {
        WordsSnoc(params[..i], params[i]);
        assert params[..i + 1] == params[..i] + [params[i]];
        inbulk := inbulk + Le32(params[i]);
      }
      assert params[..|params|] == params;
    }

    /** Copies up to `bytes` buffered bytes to `data[at..]` and shifts the buffer down. */
    method VcamRead(data: array<byte>, at: nat, bytes: nat) returns (toread: nat)
      requires at + Min(bytes, |inbulk|) <= data.Length
      modifies this`inbulk, data
      ensures toread == Min(bytes, |old(inbulk)|)
      ensures inbulk == old(inbulk)[toread..]
      ensures data[..] == Written(old(data[..]), at, old(inbulk)[..toread])
    {
      toread := bytes;
      if toread > |inbulk| {
        toread := |inbulk|;
      }
      var n := PutBytes(data, at, inbulk[..toread]);
      inbulk := inbulk[toread..];
    }

    /** Bookkeeping of a transfer: the front container loses the bytes that were served. */
    ghost method Advance(p: Pipe, len: nat)
      requires Holds(p, current, waiting) && p.inbulk != [] && MayServe(p, len)
      requires State() == Serve(p, len)
      modifies this`current, this`waiting
      ensures Valid()
    {
      ServeFromFront(p, current, waiting, len);
      hide MayServe, Chunk, Serve;
      if current == [] {
        current, waiting := waiting[0][Min(|waiting[0]|, len)..], waiting[1..];
      } else {
        current := current[Min(|current|, len)..];
      }
    }

    /** The length field of a fresh container, left at the start of the transfer. */
    method ReadLength(data: array<byte>)
      requires 4 <= data.Length && |inbulk| >= 4
      modifies this`inbulk, this`lastLength, data
      ensures lastLength == Get32(old(inbulk)) && inbulk == old(inbulk)[4..]
      ensures data[..] == Written(old(data[..]), 0, old(inbulk)[..4])
    {
      ghost var d, was := inbulk, data[..];
      var n := VcamRead(data, 0, 4);
      WrittenAtStart(was, d[..4]);
      Get32Prefix(d, 4);
      assert data[..4] == data[..][..4];
      lastLength := Get32(data[..4]);
    }

    /** The first transfer of a container. */
    method BeginContainer(data: array<byte>, len: nat, maxPacket: nat) returns (max: nat)
      requires len <= data.Length && len <= maxPacket && lastLength == 0 && MayServe(State(), len)
      modifies this`inbulk, this`lastLength, data
      ensures State() == Serve(old(State()), len)
      ensures max == Size(old(State()), len)
      ensures data[..] == Written(old(data[..]), 0, Chunk(old(State()), len))
    {
      ghost var d, was := inbulk, data[..];
      ReadLength(data);
      hide Get32, Written;
      max := Min(Min(lastLength, maxPacket), len);
      var n := VcamRead(data, 4, max - 4);
      SplitAtFour(d, max);
      WrittenOnwards(was, 0, d[..4], d[4..][..max - 4]);
      lastLength := lastLength - max;
    }

    /** One bulk-IN transfer of at most `len` bytes into `data`. */
    method UrbSplitter(data: array<byte>, len: nat) returns (max: nat)
      requires Valid() && len <= data.Length
      requires inbulk != [] && (lastLength == 0 ==> len >= 4)
      modifies this`inbulk, this`lastLength, this`current, this`waiting, data
      ensures Valid() && sent == old(sent)
      ensures MayServe(old(State()), len)
      ensures State() == Serve(old(State()), len)
      ensures max == Size(old(State()), len)
      ensures data[..] == Written(old(data[..]), 0, Chunk(old(State()), len))
    {
      ghost var p := State();
      FrontIsServable(p, current, waiting, len);
      hide Get32, Holds, Written;
      var maxPacket := if len > 512 then len else 512;
      if lastLength == 0 {
        max := BeginContainer(data, len, maxPacket);
      } else {
        max := Min(Min(lastLength, maxPacket), len);
        var n := VcamRead(data, 0, max);
        lastLength := lastLength - max;
      }
      Advance(p, len);
    }
  }
}
