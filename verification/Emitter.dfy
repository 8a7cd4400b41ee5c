/** The code buffer: bytes appended one instruction at a time, the record of the last
    store, and forward jumps patched when their target is reached. */
module Emitter {
  import opened GuestMemory
  import opened X64
  import opened Forwarding

  // ----- streams of pieces -----

  /** Pieces one after the other. */
  function Flat(parts: seq<seq<bv8>>): seq<bv8> {
    if parts == [] then [] else Flat(parts[..|parts| - 1]) + parts[|parts| - 1]
  }

  lemma FlatOne(parts: seq<seq<bv8>>, piece: seq<bv8>)
    ensures Flat(parts + [piece]) == Flat(parts) + piece
  {
    assert (parts + [piece])[..|parts|] == parts;
  }

  /** Where piece `k` starts. */
  function Start(parts: seq<seq<bv8>>, k: nat): nat
    requires k <= |parts|
  {
    |Flat(parts[..k])|
  }

  /** Some bytes at `p` replaced. */
  function Spliced(s: seq<bv8>, p: nat, b: seq<bv8>): seq<bv8>
    requires p + |b| <= |s|
  {
    s[..p] + b + s[p + |b|..]
  }

  /** The word at `p` replaced. */
  function Patched(s: seq<bv8>, p: nat, w: bv32): seq<bv8>
    requires p + 4 <= |s|
  {
    Spliced(s, p, Word(w))
  }

  lemma SpliceLast(front: seq<bv8>, head: seq<bv8>, a: seq<bv8>, b: seq<bv8>)
    requires |a| == |b|
    ensures Spliced(front + (head + a), |front| + |head|, b) == front + (head + b)
  {
    var s, p := front + (head + a), |front| + |head|;
    assert s[..p] == front + head && s[p + |b|..] == [];
  }

  lemma SpliceFront(s: seq<bv8>, more: seq<bv8>, p: nat, b: seq<bv8>)
    requires p + |b| <= |s|
    ensures Spliced(s + more, p, b) == Spliced(s, p, b) + more
  {
    assert (s + more)[..p] == s[..p] && (s + more)[p + |b|..] == s[p + |b|..] + more;
  }

  /** Rewriting the end of piece `k` rewrites as many bytes of the stream. */
  lemma {:induction false} FlatSpliced(parts: seq<seq<bv8>>, k: nat, head: seq<bv8>, a: seq<bv8>, b: seq<bv8>)
    requires k < |parts| && parts[k] == head + a && |a| == |b|
    ensures var p := Start(parts, k) + |head|;
            p + |b| <= |Flat(parts)| && Flat(parts[k := head + b]) == Spliced(Flat(parts), p, b)
    decreases |parts|
  {
    var n, x := |parts| - 1, head + b;
    var front, after := parts[..n], parts[k := x];
    if k == n {
      assert after[..n] == front;
      SpliceLast(Flat(front), head, a, b);
    } else {
      FlatSpliced(front, k, head, a, b);
      assert front[..k] == parts[..k];
      assert after[..n] == front[k := x];
      SpliceFront(Flat(front), parts[n], Start(parts, k) + |head|, b);
    }
  }

  /** Pieces of the same length start at the same places. */
  lemma {:induction false} SameStarts(parts: seq<seq<bv8>>, more: seq<seq<bv8>>, k: nat)
    requires k <= |parts| <= |more| && forall i :: 0 <= i < k ==> |parts[i]| == |more[i]|
    ensures Start(parts, k) == Start(more, k)
    decreases k
  {
    if k > 0 {
      SameStarts(parts, more, k - 1);
      assert parts[..k][..k - 1] == parts[..k - 1] && more[..k][..k - 1] == more[..k - 1];
    }
  }

  // ----- the pieces of a list of requests -----

  /** The instructions for request `k`; `rels[k]` is its jump distance, if it jumps. */
  function Piece(ops: seq<Op>, rels: seq<bv32>, k: nat): seq<Instr>
    requires k < |ops| == |rels|
  {
    match ops[k]
    case Do(_) => Emitted(ops, true, k)
    case Label => []
    case Goto(_) => [Jump(rels[k])]
    case When(cc, _) => [Branch(cc, rels[k])]
  }

  function Parts(ops: seq<Op>, rels: seq<bv32>): (parts: seq<seq<bv8>>)
    requires |ops| == |rels|
    ensures |parts| == |ops|
  {
    seq(|ops|, k requires 0 <= k < |ops| => EncodeAll(Piece(ops, rels, k)))
  }

  /** The bytes of all requests so far. */
  function Asked(ops: seq<Op>, rels: seq<bv32>): seq<bv8>
    requires |ops| == |rels|
  {
    Flat(Parts(ops, rels))
  }

  /** Equal up to the target of a jump. */
  predicate SameKind(a: Op, b: Op) { a == b || (a.Goto? && b.Goto?) || (a.When? && b.When? && a.cc == b.cc) }

  /** The record depends only on the kinds of the requests before it. */
  lemma {:induction false} PendingStable(ops: seq<Op>, more: seq<Op>, k: nat)
    requires k <= |ops| <= |more| && forall i :: 0 <= i < k ==> SameKind(ops[i], more[i])
    ensures PendingAt(ops, k) == PendingAt(more, k)
    decreases k
  {
    if k > 0 {
      PendingStable(ops, more, k - 1);
    }
  }

  lemma PieceStable(ops: seq<Op>, rels: seq<bv32>, more: seq<Op>, mrels: seq<bv32>, k: nat)
    requires k < |ops| == |rels| && |ops| <= |more| == |mrels| && rels[k] == mrels[k]
    requires forall i :: 0 <= i <= k ==> SameKind(ops[i], more[i])
    ensures Piece(ops, rels, k) == Piece(more, mrels, k)
  {
    PendingStable(ops, more, k);
  }

  /** One more request appends its piece. */
  lemma PartsGrow(ops: seq<Op>, rels: seq<bv32>, op: Op, rel: bv32)
    requires |ops| == |rels|
    ensures Parts(ops + [op], rels + [rel]) == Parts(ops, rels) + [EncodeAll(Piece(ops + [op], rels + [rel], |ops|))]
  {
    forall k | 0 <= k < |ops|
      ensures Parts(ops + [op], rels + [rel])[k] == Parts(ops, rels)[k]
    {
      PieceStable(ops, rels, ops + [op], rels + [rel], k);
    }
  }

  lemma AskedGrows(ops: seq<Op>, rels: seq<bv32>, op: Op, rel: bv32)
    requires |ops| == |rels|
    ensures Asked(ops + [op], rels + [rel]) == Asked(ops, rels) + EncodeAll(Piece(ops + [op], rels + [rel], |ops|))
    ensures PendingAt(ops + [op], |ops|) == PendingAt(ops, |ops|)
  {
    PendingStable(ops, ops + [op], |ops|);
    PartsGrow(ops, rels, op, rel);
    FlatOne(Parts(ops, rels), EncodeAll(Piece(ops + [op], rels + [rel], |ops|)));
  }

  lemma EncodeOne(i: Instr)
    ensures EncodeAll([i]) == Encode(i)
  {
    EncodeAppend([], i);
    assert [] + [i] == [i];
  }

  // ----- patching -----

  predicate Jumps(op: Op) { op.Goto? || op.When? }

  function Retargeted(op: Op, t: nat): Op
    requires Jumps(op)
  {
    if op.Goto? then Goto(t) else When(op.cc, t)
  }

  /** What a jump puts before its distance. */
  function JumpHead(op: Op): seq<bv8>
    requires Jumps(op)
  {
    if op.Goto? then [0xE9] else [0x0F, 0x80 | op.cc]
  }

  lemma JumpBytes(ops: seq<Op>, rels: seq<bv32>, k: nat)
    requires k < |ops| == |rels| && Jumps(ops[k])
    ensures EncodeAll(Piece(ops, rels, k)) == JumpHead(ops[k]) + Word(rels[k])
  {
    if ops[k].Goto? {
      EncodeOne(Jump(rels[k]));
    } else {
      EncodeOne(Branch(ops[k].cc, rels[k]));
    }
  }

  /** Giving jump `k` a target and a distance changes its own piece only. */
  lemma PartsPatched(ops: seq<Op>, rels: seq<bv32>, ops': seq<Op>, rels': seq<bv32>, k: nat, t: nat, rel: bv32)
    requires k < |ops| == |rels| && Jumps(ops[k])
    requires ops' == ops[k := Retargeted(ops[k], t)] && rels' == rels[k := rel]
    ensures Parts(ops', rels') == Parts(ops, rels)[k := JumpHead(ops[k]) + Word(rel)]
    ensures Parts(ops, rels)[k] == JumpHead(ops[k]) + Word(rels[k])
    ensures PendingAt(ops', |ops|) == PendingAt(ops, |ops|)
  {
    JumpBytes(ops, rels, k);
    JumpBytes(ops', rels', k);
    PendingStable(ops, ops', |ops|);
    forall j | 0 <= j < |ops| && j != k
      ensures Parts(ops', rels')[j] == Parts(ops, rels)[j]
    {
      PieceStable(ops, rels, ops', rels', j);
    }
  }

  lemma FlatPatched(parts: seq<seq<bv8>>, after: seq<seq<bv8>>, k: nat, head: seq<bv8>, was: bv32, rel: bv32, p: nat)
    requires k < |parts| && parts[k] == head + Word(was) && after == parts[k := head + Word(rel)]
    requires p == Start(parts, k) + |head|
    ensures p + 4 <= |Flat(parts)| && Flat(after) == Patched(Flat(parts), p, rel)
  {
    FlatSpliced(parts, k, head, Word(was), Word(rel));
  }

  /** So it rewrites the last four bytes of the jump and nothing else. */
  lemma PatchCode(ops: seq<Op>, rels: seq<bv32>, ops': seq<Op>, rels': seq<bv32>, k: nat, t: nat, rel: bv32, p: nat)
    requires k < |ops| == |rels| && Jumps(ops[k])
    requires ops' == ops[k := Retargeted(ops[k], t)] && rels' == rels[k := rel]
    requires p == Start(Parts(ops, rels), k) + |JumpHead(ops[k])|
    ensures p + 4 <= |Asked(ops, rels)| && Asked(ops', rels') == Patched(Asked(ops, rels), p, rel)
  {
    PartsPatched(ops, rels, ops', rels', k, t, rel);
    FlatPatched(Parts(ops, rels), Parts(ops', rels'), k, JumpHead(ops[k]), rels[k], rel, p);
  }

  // ----- appending bytes -----

  function Put8(s: seq<bv8>, capacity: nat, b: bv8): seq<bv8> { if |s| < capacity then s + [b] else s }

  /** A word goes in whole or not at all. */
  function Put32(s: seq<bv8>, capacity: nat, w: bv32): seq<bv8> { if |s| + 4 <= capacity then s + Word(w) else s }

  /** Bytes one by one. */
  method PutAll(s: seq<bv8>, capacity: nat, more: seq<bv8>) returns (out: seq<bv8>)
    requires |s| <= capacity
    ensures out == s + more[..if |s| + |more| <= capacity then |more| else capacity - |s|]
  {
    out := s;
    for i := 0 to |more|
      invariant out == s + more[..if |s| + i <= capacity then i else capacity - |s|]
    {
      out := Put8(out, capacity, more[i]);
      assert more[..i + 1] == more[..i] + [more[i]];
    }
  }

  /** What precedes the final word of an instruction, and that word if it has one. */
  function Head(i: Instr): seq<bv8> {
    match i
    case Load(dst, base, disp) => Prefix(dst, base) + [0x8B] + Memory(dst, base)
    case Store(src, base, disp) => Prefix(src, base) + [0x89] + Memory(src, base)
    case Move(dst, src) => Prefix(src, dst) + [0x89, ModRm(3, src, dst)]
    case MoveImm(dst, imm) => Prefix(0, dst) + [0xB8 | (dst & 7)]
    case Arith(op, dst, src) => Prefix(src, dst) + [Opcode(op), ModRm(3, src, dst)]
    case ArithImm(op, dst, imm) => Prefix(0, dst) + [0x81, ModRm(3, Extension(op), dst)]
    case Jump(rel) => [0xE9]
    case Branch(cc, rel) => [0x0F, 0x80 | cc]
  }

  function Tail(i: Instr): seq<bv32> {
    match i
    case Load(_, _, disp) => [disp]
    case Store(_, _, disp) => [disp]
    case Move(_, _) => []
    case MoveImm(_, imm) => [imm]
    case Arith(_, _, _) => []
    case ArithImm(_, _, imm) => [imm]
    case Jump(rel) => [rel]
    case Branch(_, rel) => [rel]
  }

  lemma HeadAndTail(i: Instr)
    ensures Encode(i) == Head(i) + (if Tail(i) == [] then [] else Word(Tail(i)[0]))
  {
  }

  /** An instruction, or as much of it as goes in. */
  method Append(s: seq<bv8>, capacity: nat, i: Instr) returns (out: seq<bv8>)
    requires |s| <= capacity
    ensures |s| <= |out| <= capacity && (|s| + |Encode(i)| <= capacity ==> out == s + Encode(i))
    ensures |s| + |Encode(i)| > capacity ==>
      var head := |Encode(i)| - if i.Move? || i.Arith? then 0 else 4;
      out == s + Encode(i)[..if capacity - |s| <= head then capacity - |s| else head]
  {
    HeadAndTail(i);
    out := PutAll(s, capacity, Head(i));
    if Tail(i) != [] {
      out := Put32(out, capacity, Tail(i)[0]);
    }
  }

  // ----- the buffer -----

  /** The record as the next load sees it: only a store that ended right here counts. */
  function Current(last: Pending, lastEnd: nat, here: nat): Pending { if lastEnd == here then last else Nothing }

  /** What the buffer holds when everything asked for fits. */
  ghost predicate Faithful(ops: seq<Op>, rels: seq<bv32>, capacity: nat, bytes: seq<bv8>, last: Pending, lastEnd: nat)
    requires |ops| == |rels|
  {
    |Asked(ops, rels)| <= capacity ==>
      bytes == Asked(ops, rels) && PendingAt(ops, |ops|) == Current(last, lastEnd, |bytes|)
  }

  /** A request that puts down the bytes `piece` and leaves the record `last'`. */
  lemma RequestKeeps(ops: seq<Op>, rels: seq<bv32>, op: Op, capacity: nat, bytes: seq<bv8>, last: Pending, lastEnd: nat,
                     piece: seq<bv8>, bytes': seq<bv8>, last': Pending, lastEnd': nat)
    requires |ops| == |rels| && Faithful(ops, rels, capacity, bytes, last, lastEnd)
    requires |bytes| + |piece| <= capacity ==> bytes' == bytes + piece
    requires PendingAt(ops, |ops|) == Current(last, lastEnd, |bytes|) ==>
      EncodeAll(Piece(ops + [op], rels + [0], |ops|)) == piece
      && (bytes' == bytes + piece ==> PendingAt(ops + [op], |ops| + 1) == Current(last', lastEnd', |bytes'|))
    ensures Faithful(ops + [op], rels + [0], capacity, bytes', last', lastEnd')
  {
    AskedGrows(ops, rels, op, 0);
  }

  lemma EncodesShort(i: Instr)
    ensures |Encode(i)| <= 8
  {
  }

  /** Put down at most one instruction. */
  method PutCode(s: seq<bv8>, capacity: nat, code: seq<Instr>) returns (out: seq<bv8>)
    requires |s| <= capacity && |code| <= 1
    ensures |s| <= |out| <= capacity && (|s| + |EncodeAll(code)| <= capacity ==> out == s + EncodeAll(code))
    ensures code != [] ==> |EncodeAll(code)| > 0
    ensures if code == [] then out == s else |s| + 8 <= capacity ==> out == s + Encode(code[0])
  {
    out := s;
    if code != [] {
      EncodeOne(code[0]);
      EncodesShort(code[0]);
      assert code == [code[0]];
      out := Append(s, capacity, code[0]);
    }
  }

  /** What is emitted for a load: the load, a move from the register stored last, or nothing. */
  method ChooseLoad(hit: Pending, dst: Reg, base: Reg, disp: bv32) returns (code: seq<Instr>)
    ensures code == Forwarded(Do(Load(dst, base, disp)), hit) && |code| <= 1
  {
    if hit.Stored? && hit.base == base && hit.disp == disp {
      code := if dst != hit.src then [Move(dst, hit.src)] else [];
    } else {
      code := [Load(dst, base, disp)];
    }
  }

  /** The piece and the record of a request for an instruction. */
  lemma DoPiece(ops: seq<Op>, rels: seq<bv32>, i: Instr)
    requires |ops| == |rels|
    ensures Piece(ops + [Do(i)], rels + [0], |ops|) == Forwarded(Do(i), PendingAt(ops, |ops|))
    ensures PendingAt(ops + [Do(i)], |ops| + 1) ==
      if i.Store? then Stored(i.src, i.base, i.disp) else if AddsZero(Do(i)) then PendingAt(ops, |ops|) else Nothing
  {
    PendingStable(ops, ops + [Do(i)], |ops|);
  }

  lemma LoadKeeps(ops: seq<Op>, rels: seq<bv32>, i: Instr, capacity: nat, bytes: seq<bv8>, last: Pending, lastEnd: nat,
                  code: seq<Instr>, out: seq<bv8>)
    requires |ops| == |rels| && i.Load? && Faithful(ops, rels, capacity, bytes, last, lastEnd)
    requires code == Forwarded(Do(i), Current(last, lastEnd, |bytes|))
    requires |bytes| + |EncodeAll(code)| <= capacity ==> out == bytes + EncodeAll(code)
    ensures Faithful(ops + [Do(i)], rels + [0], capacity, out, Nothing, 0)
  {
    DoPiece(ops, rels, i);
    RequestKeeps(ops, rels, Do(i), capacity, bytes, last, lastEnd, EncodeAll(code), out, Nothing, 0);
  }

  class CodeBuffer {
    const capacity: nat
    var bytes: seq<bv8>
    var last: Pending
    var lastEnd: nat
    ghost var ops: seq<Op>
    ghost var rels: seq<bv32>

    ghost predicate Valid()
      reads this
    {
      |ops| == |rels| && |bytes| <= capacity && lastEnd <= |bytes|
        && Faithful(ops, rels, capacity, bytes, last, lastEnd)
    }

    constructor (size: nat)
      ensures Valid() && capacity == size && ops == [] && bytes == []
    {
      capacity, bytes, last, lastEnd, ops, rels := size, [], Nothing, 0, [], [];
    }

    /** A load, or what forwarding makes of it. */
    method EmitLoad(dst: Reg, base: Reg, disp: bv32)
      requires Valid()
      modifies this
      ensures Valid() && ops == old(ops) + [Do(Load(dst, base, disp))] && rels == old(rels) + [0]
      ensures last == Nothing
      ensures |old(bytes)| + 8 <= capacity ==>
        var from := old(last);
        bytes == old(bytes) + (if old(lastEnd) != |old(bytes)| || !from.Stored? || from.base != base
                                  || from.disp != disp
                               then Encode(Load(dst, base, disp))
                               else if dst == from.src then [] else Encode(Move(dst, from.src)))
    {
      var code := ChooseLoad(Current(last, lastEnd, |bytes|), dst, base, disp);
      var out := PutCode(bytes, capacity, code);
      LoadKeeps(ops, rels, Load(dst, base, disp), capacity, bytes, last, lastEnd, code, out);
      bytes, last, lastEnd := out, Nothing, 0;
      ops, rels := ops + [Do(Load(dst, base, disp))], rels + [0];
    }

    /** A store, remembered for a load that may follow. */
    method EmitStore(src: Reg, base: Reg, disp: bv32)
      requires Valid()
      modifies this
      ensures Valid() && ops == old(ops) + [Do(Store(src, base, disp))] && rels == old(rels) + [0]
      ensures last == Stored(src, base, disp) && lastEnd == |bytes|
      ensures |old(bytes)| + 8 <= capacity ==> bytes == old(bytes) + Encode(Store(src, base, disp))
    {
      var code := [Store(src, base, disp)];
      var out := PutCode(bytes, capacity, code);
      DoPiece(ops, rels, code[0]);
      RequestKeeps(ops, rels, Do(code[0]), capacity, bytes, last, lastEnd, EncodeAll(code), out,
                   Stored(src, base, disp), |out|);
      bytes, last, lastEnd := out, Stored(src, base, disp), |out|;
      ops, rels := ops + [Do(code[0])], rels + [0];
    }

    /** Any other instruction; adding zero emits nothing. */
    method EmitOther(i: Instr)
      requires Valid() && (i.Move? || i.MoveImm? || i.Arith? || i.ArithImm?)
      modifies this
      ensures Valid() && ops == old(ops) + [Do(i)] && rels == old(rels) + [0]
      ensures last == old(last) && lastEnd == old(lastEnd)
      ensures if i.ArithImm? && i.opi == AddI && i.imm == 0 then bytes == old(bytes)
              else |old(bytes)| + 8 <= capacity ==> bytes == old(bytes) + Encode(i)
    {
      var code := if i.ArithImm? && i.opi.AddI? && i.imm == 0 then [] else [i];
      var out := PutCode(bytes, capacity, code);
      DoPiece(ops, rels, i);
      assert code == [] ==> EncodeAll(code) == [];
      RequestKeeps(ops, rels, Do(i), capacity, bytes, last, lastEnd, EncodeAll(code), out, last, lastEnd);
      bytes := out;
      ops, rels := ops + [Do(i)], rels + [0];
    }

    /** A jump whose distance is filled in later, at the returned offset. */
    method EmitJump(op: Op) returns (patch: nat)
      requires Valid() && Jumps(op)
      modifies this
      ensures Valid() && ops == old(ops) + [op] && rels == old(rels) + [0]
      ensures |Asked(ops, rels)| <= capacity ==> patch == Start(Parts(ops, rels), |ops| - 1) + |JumpHead(op)|
      ensures last == old(last) && lastEnd == old(lastEnd) && patch == |old(bytes)| + if op.Goto? then 1 else 2
      ensures |old(bytes)| + 8 <= capacity ==>
                bytes == old(bytes) + if op.Goto? then Encode(Jump(0)) else Encode(Branch(op.cc, 0))
    {
      var code := if op.Goto? then [Jump(0)] else [Branch(op.cc, 0)];
      var out := PutCode(bytes, capacity, code);
      JumpBytes(ops + [op], rels + [0], |ops|);
      PartsGrow(ops, rels, op, 0);
      assert Parts(ops + [op], rels + [0])[..|ops|] == Parts(ops, rels);
      RequestKeeps(ops, rels, op, capacity, bytes, last, lastEnd, EncodeAll(code), out, last, lastEnd);
      patch := |bytes| + if op.Goto? then 1 else 2;
      bytes := out;
      ops, rels := ops + [op], rels + [0];
    }

    /** A place where control may enter: the record is dropped. */
    method Barrier()
      requires Valid()
      modifies this
      ensures Valid() && ops == old(ops) + [Label] && rels == old(rels) + [0] && bytes == old(bytes)
      ensures last == Nothing
    {
      RequestKeeps(ops, rels, Label, capacity, bytes, last, lastEnd, [], bytes, Nothing, 0);
      last, lastEnd := Nothing, 0;
      ops, rels := ops + [Label], rels + [0];
    }

    /** Make jump `k`, whose distance sits at `patch`, land here. Once a request did not fit, four
        bytes of a buffer that is of no use are rewritten. */
    method PatchHere(patch: nat, ghost k: nat)
      requires Valid() && k < |ops| && Jumps(ops[k]) && capacity < 0x8000_0000 && patch + 4 <= |bytes|
      requires |Asked(ops, rels)| <= capacity ==> patch == Start(Parts(ops, rels), k) + |JumpHead(ops[k])|
      modifies this
      ensures Valid() && rels == old(rels)[k := Distance(|old(bytes)|, patch + 4)] + [0]
      ensures ops == old(ops)[k := Retargeted(old(ops)[k], |old(ops)|)] + [Label]
      ensures bytes == Patched(old(bytes), patch, Distance(|old(bytes)|, patch + 4))
      ensures |Asked(ops, rels)| <= capacity ==> Lands(ops, rels, k)
      ensures last == Nothing && |bytes| == |old(bytes)|
      ensures bytes[..patch] == old(bytes)[..patch] && bytes[patch + 4..] == old(bytes)[patch + 4..]
      ensures bytes[patch] as nat + 0x100 * bytes[patch + 1] as nat + 0x1_0000 * bytes[patch + 2] as nat
              + 0x100_0000 * bytes[patch + 3] as nat == |bytes| - (patch + 4)
    {
      var rel := Distance(|bytes|, patch + 4);
      ghost var ops', rels' := ops[k := Retargeted(ops[k], |ops|)], rels[k := rel];
      DistanceBack(|bytes|, patch + 4);
      PatchKeeps(ops, rels, ops', rels', k, rel, capacity, bytes, last, lastEnd, patch);
      PatchedBytes(bytes, patch, rel);
      bytes := Patched(bytes, patch, rel);
      last, lastEnd := Nothing, 0;
      ops, rels := ops' + [Label], rels' + [0];
    }
  }

  // ----- where jumps land -----

  /** The distance from the end of a jump to its target, as the bytes of a word. */
  function Distance(target: nat, end: nat): bv32
    requires end <= target < 0x8000_0000
  {
    var d := target - end;
    WordOf(Digit(d % 256), Digit(d / 256 % 256), Digit(d / 256 / 256 % 256), Digit(d / 256 / 256 / 256))
  }

  /** The byte that spells `n`. */
  function Digit(n: nat): bv8
    requires n < 256
  {
    if n == 0 then 0 else Digit(n - 1) + 1
  }

  /** The number a word spells, least significant byte first. */
  function Value(w: bv32): nat {
    ByteOf(w, 0) as nat + 256 * (ByteOf(w, 1) as nat + 256 * (ByteOf(w, 2) as nat + 256 * ByteOf(w, 3) as nat))
  }

  lemma OneMore(b: bv8)
    requires b != 255
    ensures (b + 1) as nat == b as nat + 1
  {
  }

  lemma NotFull(b: bv8)
    requires b as nat < 255
    ensures b != 255
  {
  }

  lemma {:induction false} DigitBack(n: nat)
    requires n < 256
    ensures Digit(n) as nat == n
  {
    if n > 0 {
      DigitBack(n - 1);
      NotFull(Digit(n - 1));
      OneMore(Digit(n - 1));
    }
  }

  lemma DistanceBack(target: nat, end: nat)
    requires end <= target < 0x8000_0000
    ensures Value(Distance(target, end)) == target - end
  {
    var d := target - end;
    var e := d / 256;
    var f := e / 256;
    BytesOfWord(Digit(d % 256), Digit(e % 256), Digit(f % 256), Digit(f / 256), Distance(target, end));
    DigitBack(d % 256);
    DigitBack(e % 256);
    DigitBack(f % 256);
    DigitBack(f / 256);
  }

  /** The four bytes at `p` spell the word; the others are as they were. */
  lemma PatchedBytes(s: seq<bv8>, p: nat, w: bv32)
    requires p + 4 <= |s|
    ensures var t := Patched(s, p, w);
      && |t| == |s| && t[..p] == s[..p] && t[p + 4..] == s[p + 4..]
      && t[p] as nat + 0x100 * t[p + 1] as nat + 0x1_0000 * t[p + 2] as nat + 0x100_0000 * t[p + 3] as nat == Value(w)
  {
    assert Patched(s, p, w)[p..p + 4] == Word(w);
  }

  /** The jump at `k` goes from its own end to the start of its target. */
  ghost predicate Lands(ops: seq<Op>, rels: seq<bv32>, k: nat)
    requires |ops| == |rels|
  {
    k < |ops| && Jumps(ops[k]) && ops[k].target <= |ops|
    && Start(Parts(ops, rels), k + 1) + Value(rels[k]) == Start(Parts(ops, rels), ops[k].target)
  }

  lemma StartNext(parts: seq<seq<bv8>>, k: nat)
    requires k < |parts|
    ensures Start(parts, k + 1) == Start(parts, k) + |parts[k]|
  {
    assert parts[..k + 1][..k] == parts[..k];
  }

  /** With `d` bytes from the end of piece `k` to the end of the stream, that is where the
      next piece starts. */
  lemma PartsLand(parts: seq<seq<bv8>>, after: seq<seq<bv8>>, k: nat, patched: seq<bv8>, tail: seq<bv8>, d: nat)
    requires k < |parts| && |patched| == |parts[k]| && after == parts[k := patched] + [tail]
    requires Start(parts, k) + |parts[k]| + d == |Flat(parts)|
    ensures Start(after, k + 1) + d == Start(after, |parts|)
  {
    SameStarts(parts, after, k);
    SameStarts(parts, after, |parts|);
    StartNext(after, k);
    assert parts[..|parts|] == parts;
  }

  lemma PatchLands(ops: seq<Op>, rels: seq<bv32>, ops': seq<Op>, rels': seq<bv32>, k: nat, rel: bv32, p: nat, d: nat)
    requires k < |ops| == |rels| && Jumps(ops[k]) && p == Start(Parts(ops, rels), k) + |JumpHead(ops[k])|
    requires ops' == ops[k := Retargeted(ops[k], |ops|)] && rels' == rels[k := rel]
    requires p + 4 + d == |Asked(ops, rels)| && d == Value(rel)
    ensures Lands(ops' + [Label], rels' + [0], k)
  {
    PartsPatched(ops, rels, ops', rels', k, |ops|, rel);
    PartsGrow(ops', rels', Label, 0);
    PartsLand(Parts(ops, rels), Parts(ops' + [Label], rels' + [0]), k, JumpHead(ops[k]) + Word(rel),
              EncodeAll(Piece(ops' + [Label], rels' + [0], |ops|)), d);
  }

  /** A buffer that fits has the jump landing where it ends; one that does not fit stays so. */
  lemma PatchKeeps(ops: seq<Op>, rels: seq<bv32>, ops': seq<Op>, rels': seq<bv32>, k: nat, rel: bv32,
                   capacity: nat, bytes: seq<bv8>, last: Pending, lastEnd: nat, patch: nat)
    requires k < |ops| == |rels| && Jumps(ops[k]) && patch + 4 <= |bytes| <= capacity
    requires ops' == ops[k := Retargeted(ops[k], |ops|)] && rels' == rels[k := rel] && patch + 4 + Value(rel) == |bytes|
    requires Faithful(ops, rels, capacity, bytes, last, lastEnd)
    requires |Asked(ops, rels)| <= capacity ==> patch == Start(Parts(ops, rels), k) + |JumpHead(ops[k])|
    ensures Faithful(ops' + [Label], rels' + [0], capacity, Patched(bytes, patch, rel), Nothing, 0)
    ensures |Asked(ops' + [Label], rels' + [0])| <= capacity ==> Lands(ops' + [Label], rels' + [0], k)
  {
    PatchedAsked(ops, rels, ops', rels', k, rel, Start(Parts(ops, rels), k) + |JumpHead(ops[k])|);
    if |Asked(ops, rels)| <= capacity {
      PatchLands(ops, rels, ops', rels', k, rel, patch, Value(rel));
    }
  }

  lemma PatchedAsked(ops: seq<Op>, rels: seq<bv32>, ops': seq<Op>, rels': seq<bv32>, k: nat, rel: bv32, p: nat)
    requires k < |ops| == |rels| && Jumps(ops[k]) && p == Start(Parts(ops, rels), k) + |JumpHead(ops[k])|
    requires ops' == ops[k := Retargeted(ops[k], |ops|)] && rels' == rels[k := rel]
    ensures p + 4 <= |Asked(ops, rels)| && Asked(ops' + [Label], rels' + [0]) == Patched(Asked(ops, rels), p, rel)
    ensures |Asked(ops' + [Label], rels' + [0])| == |Asked(ops, rels)|
    ensures PendingAt(ops' + [Label], |ops| + 1) == Nothing
  {
    PatchCode(ops, rels, ops', rels', k, |ops|, rel, p);
    AskedGrows(ops', rels', Label, 0);
    assert EncodeAll([]) == [];
  }

  /** Later requests do not move where a jump lands. */
  lemma LandsStill(ops: seq<Op>, rels: seq<bv32>, op: Op, k: nat)
    requires |ops| == |rels| && Lands(ops, rels, k)
    ensures Lands(ops + [op], rels + [0], k)
  {
    PartsGrow(ops, rels, op, 0);
    SameStarts(Parts(ops, rels), Parts(ops + [op], rels + [0]), k + 1);
    SameStarts(Parts(ops, rels), Parts(ops + [op], rels + [0]), ops[k].target);
  }

  // ----- what the buffer is good for -----

  function Concat(pieces: seq<seq<Instr>>): seq<Instr> {
    if pieces == [] then [] else Concat(pieces[..|pieces| - 1]) + pieces[|pieces| - 1]
  }

  /** The instructions of all requests. */
  function Code(ops: seq<Op>, rels: seq<bv32>): seq<Instr>
    requires |ops| == |rels|
  {
    Concat(seq(|ops|, k requires 0 <= k < |ops| => Piece(ops, rels, k)))
  }

  lemma {:induction false} JoinedFlat(f: Instr -> seq<bv8>, pieces: seq<seq<Instr>>, parts: seq<seq<bv8>>)
    requires |pieces| == |parts| && forall k :: 0 <= k < |parts| ==> parts[k] == Joined(f, pieces[k])
    ensures Joined(f, Concat(pieces)) == Flat(parts)
    decreases |parts|
  {
    if pieces != [] {
      var n := |pieces| - 1;
      JoinedFlat(f, pieces[..n], parts[..n]);
      JoinedAppend(f, Concat(pieces[..n]), pieces[n]);
    }
  }

  lemma CodeBytes(ops: seq<Op>, rels: seq<bv32>)
    requires |ops| == |rels|
    ensures EncodeAll(Code(ops, rels)) == Asked(ops, rels)
  {
    JoinedFlat(Encode, seq(|ops|, k requires 0 <= k < |ops| => Piece(ops, rels, k)), Parts(ops, rels));
  }

  /** Exactly when all requests fit, the buffer is what was asked for; and then it decodes
      to the forwarded code of the requests, instruction for instruction. */
  lemma FitsExactly(ops: seq<Op>, rels: seq<bv32>, capacity: nat, bytes: seq<bv8>, last: Pending, lastEnd: nat)
    requires |ops| == |rels| && |bytes| <= capacity && Faithful(ops, rels, capacity, bytes, last, lastEnd)
    ensures bytes == Asked(ops, rels) <==> |Asked(ops, rels)| <= capacity
    ensures |Asked(ops, rels)| <= capacity ==> DecodeAll(bytes) == (Code(ops, rels), [])
  {
    CodeBytes(ops, rels);
    StreamDecodesBack(Code(ops, rels));
  }

  /** The generator's own test, some room left at the end, does not tell: a word that did
      not fit leaves the room free. */
  lemma RoomIsNotEnough()
    ensures var capacity, i := 8, MoveImm(0, 7);
      var once := Put32(Put8([], capacity, 0xB8), capacity, 7);
      var twice := Put32(Put8(once, capacity, 0xB8), capacity, 7);
      |twice| < capacity && |EncodeAll([i, i])| > capacity
  {
    var i := MoveImm(0, 7);
    EncodeAppend([i], i);
    EncodeOne(i);
    assert [i] + [i] == [i, i];
    assert |Encode(i)| == 5 by {
      assert Rex(0, 0) == 0x40;
    }
  }
}
