/** The write-ahead log: records cut into fragments that never cross a block, each with a checksum. */
module LogFormat {
  import opened DbFormat
  import opened Coding

  const BLOCK: nat := 32768
  const HEADER: nat := 7

  const ZERO: Byte := 0
  const FULL: Byte := 1
  const FIRST: Byte := 2
  const MIDDLE: Byte := 3
  const LAST: Byte := 4

  // The checksum of a kind and a payload; which function it is does not matter.
  datatype Crc = Crc(value: Bytes -> Uint32)

  const MASK_DELTA: nat := 0xa282ead8

  // Rotate right by 15 bits and add a constant, in 32 bits.
  function Mask(crc: Uint32): Uint32 {
    (crc / 0x8000 + crc % 0x8000 * 0x2_0000 + MASK_DELTA) % WORD32
  }

  function Unmask(masked: Uint32): Uint32 {
    var rot := (masked + WORD32 - MASK_DELTA) % WORD32;
    rot / 0x2_0000 + rot % 0x2_0000 * 0x8000
  }

  lemma UnmaskMask(crc: Uint32)
    ensures Unmask(Mask(crc)) == crc
  {
    var rotated := crc / 0x8000 + crc % 0x8000 * 0x2_0000;
    assert rotated < WORD32;
    assert (Mask(crc) + WORD32 - MASK_DELTA) % WORD32 == rotated;
  }

  function RecordKind(begin: bool, end: bool): Byte {
    if begin && end then FULL else if begin then FIRST else if end then LAST else MIDDLE
  }

  // One physical record: checksum, length, kind, payload.
  function Physical(crc: Crc, kind: Byte, payload: Bytes): (r: Bytes)
    requires |payload| <= 0xffff
    ensures |r| == HEADER + |payload|
  {
    Fixed(Mask(crc.value([kind] + payload)), 4) + [|payload| % 256, |payload| / 256] + [kind] + payload
  }

  function Zeros(n: nat): (r: Bytes)
    ensures |r| == n
  {
    seq(n, _ => 0)
  }

  function BlockEnd(p: nat): nat {
    (p / BLOCK + 1) * BLOCK
  }

  // Where the next header goes: the last few bytes of a block are left unused when no header fits.
  function Start(p: nat): (r: nat)
    ensures p <= r
  {
    if BLOCK - p % BLOCK < HEADER then BlockEnd(p) else p
  }

  lemma StartFits(p: nat)
    ensures Start(p) == p || Start(p) == BlockEnd(p)
    ensures Start(p) % BLOCK + HEADER <= BLOCK
  {
  }

  function Room(p: nat): nat {
    StartFits(p);
    BLOCK - Start(p) % BLOCK - HEADER
  }

  function Fragment(p: nat, data: Bytes): (n: nat)
    ensures n <= |data| && n <= 0xffff
  {
    if |data| < Room(p) then |data| else Room(p)
  }

  // After a fragment that fills its block the next one starts a new block.
  lemma NextRoom(p: nat, data: Bytes)
    ensures var q := Start(p) + HEADER + Fragment(p, data);
      Fragment(p, data) < |data| ==> Room(q) > 0 && (Room(p) == 0 || Fragment(p, data) > 0)
  {
  }

  // Only the last fragment of a record leaves room in its block, and padding is shorter than a header.
  lemma FragmentsFillBlocks(p: nat, data: Bytes)
    ensures Fragment(p, data) < |data| ==> Start(p) + HEADER + Fragment(p, data) == BlockEnd(Start(p))
    ensures Start(p) - p < HEADER
  {
    StartFits(p);
  }

  // The first fragment of what is left of a record, with the padding before it.
  function Head(crc: Crc, p: nat, data: Bytes, begin: bool): (r: Bytes)
    ensures |r| == Start(p) - p + HEADER + Fragment(p, data)
  {
    var n := Fragment(p, data);
    Zeros(Start(p) - p) + Physical(crc, RecordKind(begin, n == |data|), data[..n])
  }

  // What a record appended at position `p` adds to the file.
  function Fragments(crc: Crc, p: nat, data: Bytes, begin: bool): (r: Bytes)
    ensures |r| >= HEADER
    decreases |data|, if Room(p) == 0 then 1 else 0
  {
    var n, head := Fragment(p, data), Head(crc, p, data, begin);
    if n == |data| then head else
    NextRoom(p, data);
    head + Fragments(crc, p + |head|, data[n..], false)
  }

  class Writer {
    const crc: Crc
    var dest: Bytes
    var blockOffset: nat

    // Append to a file that may have contents already.
    constructor (crc: Crc, dest: Bytes)
      ensures this.crc == crc && this.dest == dest && Valid()
    {
      this.crc, this.dest := crc, dest;
      blockOffset := |dest| % BLOCK;
    }

    ghost predicate Valid()
      reads this
    {
      blockOffset <= BLOCK && blockOffset % BLOCK == |dest| % BLOCK
    }

    method EmitPhysicalRecord(kind: Byte, payload: Bytes)
      requires Valid() && blockOffset + HEADER + |payload| <= BLOCK
      modifies this
      ensures Valid() && dest == old(dest) + Physical(crc, kind, payload)
    {
      SameOffset(blockOffset, |dest|, HEADER + |payload|);
      hide Mask, Fixed;
      var checksum := EncodeFixed32(Mask(crc.value([kind] + payload)));
      dest := dest + (checksum + [|payload| % 256, |payload| / 256] + [kind] + payload);
      blockOffset := blockOffset + HEADER + |payload|;
    }

    // Finish a block in which no header fits.
    method SwitchBlock()
      requires Valid()
      modifies this
      ensures Valid() && dest == old(dest) + Zeros(Start(|old(dest)|) - |old(dest)|)
      ensures blockOffset == Start(|old(dest)|) % BLOCK && |dest| == Start(|old(dest)|)
    {
      var leftover := BLOCK - blockOffset;
      if leftover < HEADER {
        if leftover > 0 {
          dest := dest + Zeros(leftover);
        }
        blockOffset := 0;
      }
    }

    // One round: switch blocks if need be, and emit what fits.
    method EmitFragment(left: Bytes, begin: bool) returns (n: nat)
      requires Valid()
      modifies this
      ensures Valid() && dest == old(dest) + Head(crc, |old(dest)|, left, begin)
      ensures n == Fragment(|old(dest)|, left)
    {
      SwitchBlock();
      var avail := BLOCK - blockOffset - HEADER;
      n := if |left| < avail then |left| else avail;
      EmitPhysicalRecord(RecordKind(begin, n == |left|), left[..n]);
    }

    // What is to be in the file once `left` has been written as well.
    ghost function Goal(left: Bytes, begin: bool, more: bool): Bytes
      reads this
    {
      if more then dest + Fragments(crc, |dest|, left, begin) else dest
    }

    method AddRecord(data: Bytes)
      requires Valid()
      modifies this
      ensures Valid() && dest == old(dest) + Fragments(crc, |old(dest)|, data, true)
    {
      // The bytes that are still to be written.
      var left, begin, more := data, true, true;
      ghost var goal := Goal(left, begin, more);
      while more
        invariant Valid() && Goal(left, begin, more) == goal
        decreases more, |left|, if Room(|dest|) == 0 then 1 else 0
      {
        left, more := Advance(left, begin);
        begin := false;
      }
    }

    method Advance(left: Bytes, begin: bool) returns (left': Bytes, more: bool)
      requires Valid()
      modifies this
      ensures Valid() && Goal(left', false, more) == old(Goal(left, begin, true))
      ensures more ==> |left'| <= |left| && Room(|dest|) > 0 && (old(Room(|dest|)) == 0 || |left'| < |left|)
    {
      hide *;
      ghost var before := dest;
      GoalIs(left, begin, true);
      var n := EmitFragment(left, begin);
      left', more := left[n..], n < |left|;
      AppendHead(crc, before, left, begin);
      NextRoom(|before|, left);
      assert dest == before + Head(crc, |before|, left, begin);
      GoalIs(left', false, more);
    }

    lemma GoalIs(left: Bytes, begin: bool, more: bool)
      ensures Goal(left, begin, more) == if more then dest + Fragments(crc, |dest|, left, begin) else dest
    {
    }
  }

  lemma SameOffset(a: nat, b: nat, k: nat)
    requires a % BLOCK == b % BLOCK
    ensures (a + k) % BLOCK == (b + k) % BLOCK
  {
  }

  lemma AppendHead(crc: Crc, before: Bytes, data: Bytes, begin: bool)
    ensures var n, p, written := Fragment(|before|, data), |before|, before + Head(crc, |before|, data, begin);
      && (n == |data| ==> before + Fragments(crc, p, data, begin) == written)
      && (n < |data| ==> before + Fragments(crc, p, data, begin) == written + Fragments(crc, |written|, data[n..], false))
  {
    hide Head, Fragment, Start;
    var n, p, head := Fragment(|before|, data), |before|, Head(crc, |before|, data, begin);
    assert |before + head| == p + |head|;
    if n < |data| {
      Assoc(before, head, Fragments(crc, p + |head|, data[n..], false));
    }
  }
}
