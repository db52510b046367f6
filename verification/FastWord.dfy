/** The 134-bit words that travel on every packet bus of the pipeline.
    Bits 133..132 frame a packet, bits 131..128 carry the byte count of the word and
    bits 127..0 the data.  The first two words of a packet hold its metadata. */
module FastWord {
  const TWO_TO_THE_32: nat := 0x1_0000_0000
  const TWO_TO_THE_64: nat := 0x1_0000_0000_0000_0000
  const TWO_TO_THE_128: nat := 0x1_0000_0000_0000_0000_0000_0000_0000_0000

  type Framing = x: nat | x < 4
  type Nibble = x: nat | x < 16
  type Payload = x: nat | x < TWO_TO_THE_128
  type Uint32 = x: nat | x < TWO_TO_THE_32
  type Uint64 = x: nat | x < TWO_TO_THE_64

  const HEAD: Framing := 1
  const TAIL: Framing := 2
  const BODY: Framing := 3

  datatype Word = Word(framing: Framing, count: Nibble, payload: Payload) {
    predicate IsHead() { framing == HEAD }
    predicate IsTail() { framing == TAIL }
    predicate IsBody() { framing == BODY }
  }

  const ZERO_WORD := Word(0, 0, 0)

  /** The registers that drive a packet bus: a word, its strobe, and the end-of-packet flag
      with its strobe. */
  datatype Bus = Bus(word: Word, wr: bool, valid: bool, validWr: bool)

  const IDLE_BUS := Bus(ZERO_WORD, false, false, false)

  /** The field of x that starts at weight `low` and has `size` values, both powers of two. */
  function Field(x: nat, low: nat, size: nat): (r: nat)
    requires low > 0 && size > 0
    ensures r < size
  {
    (x / low) % size
  }

  /** A packet as the bus frames it: one head (01), any number of body words (11), one tail (10). */
  ghost predicate WellFramed(p: seq<Word>) {
    && 2 <= |p|
    && p[0].framing == 1
    && p[|p| - 1].framing == 2
    && forall i :: 0 < i < |p| - 1 ==> p[i].framing == 3
  }

  /** The elements of a list of sequences, in order. */
  function Flatten<T>(ps: seq<seq<T>>): seq<T> {
    if ps == [] then [] else ps[0] + Flatten(ps[1..])
  }

  lemma {:induction false} FlattenAppend<T>(ps: seq<seq<T>>, qs: seq<seq<T>>)
    ensures Flatten(ps + qs) == Flatten(ps) + Flatten(qs)
  {
    if ps == [] {
      assert ps + qs == qs;
    } else {
      assert (ps + qs)[1..] == ps[1..] + qs;
      calc {
        Flatten(ps + qs);
        ps[0] + Flatten(ps[1..] + qs);
        { FlattenAppend(ps[1..], qs); }
        ps[0] + (Flatten(ps[1..]) + Flatten(qs));
        Flatten(ps) + Flatten(qs);
      }
    }
  }
}
