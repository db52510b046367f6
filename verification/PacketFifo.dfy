/** The FIFOs of the pipeline and the word streams that pass through them. */
module PacketFifo {
  import opened FastWord

  /** A FIFO over one edge: the read strobe removes the first element, the write strobe adds
      one if there is room. */
  function FifoStep<T>(q: seq<T>, rd: bool, wr: bool, x: T, depth: nat): seq<T> {
    (if rd && q != [] then q[1..] else q) + (if wr && |q| < depth then [x] else [])
  }

  /** What an empty FIFO shows; it is never looked at by a machine that reads whole packets. */
  function Shown(data: seq<Word>): Word { if data == [] then ZERO_WORD else data[0] }

  /** The word a bus carries in one cycle, if any. */
  function Shows(b: Bus): seq<Word> { if b.wr then [b.word] else [] }

  ghost predicate Packets(ps: seq<seq<Word>>) {
    forall k :: 0 <= k < |ps| ==> WellFramed(ps[k])
  }

  /** One tail, at the end. */
  ghost predicate EndsInTail(p: seq<Word>) {
    p != [] && p[|p| - 1].IsTail() && forall i :: 0 <= i < |p| - 1 ==> !p[i].IsTail()
  }

  /** The number of packets that end in a stream. */
  function Tails(ws: seq<Word>): nat {
    if ws == [] then 0 else (if ws[0].IsTail() then 1 else 0) + Tails(ws[1..])
  }

  lemma {:induction false} TailsAppend(ws: seq<Word>, us: seq<Word>)
    ensures Tails(ws + us) == Tails(ws) + Tails(us)
  {
    if ws == [] {
      assert ws + us == us;
    } else {
      TailsAppend(ws[1..], us);
      assert (ws + us)[1..] == ws[1..] + us;
    }
  }
}
