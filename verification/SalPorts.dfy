/** Local ports of the SAL: the list of bound control blocks and the allocator that walks the dynamic port
    range.  TCP and UDP have one copy each of the same code. */
module SalPorts {
  const START := 0xc000
  const END := 0xffff
  const COUNT := 0x4000

  datatype Err = Ok | Val | Buf | Use

  // ---------------------------------------------------------------- walking the range

  function AsNat(x: bv32): nat {
    x as nat
  }

  /** ENSURE_LOCAL_PORT_RANGE, with the cut to 16 bits: the two top bits of the port are set. */
  function RangeBits(random: bv32): bv32 {
    ((random & !0xc000) + 0xc000) & 0xffff
  }

  function LowBits(x: bv32): bv32 {
    x & 0x3fff
  }

  function HighBits(x: bv32): bv32 {
    x >> 14
  }

  function Eighteen(x: bv32): bv32 {
    x & 0x3_ffff
  }

  function Glued(h: bv32, l: bv32): bv32 {
    ((h & 0x3_ffff) << 14) | (l & 0x3fff)
  }

  lemma GluedNumber(h: bv32, l: bv32)
    ensures AsNat(Glued(h, l)) == 0x4000 * AsNat(Eighteen(h)) + AsNat(LowBits(l)) && AsNat(LowBits(l)) < 0x4000
  {
  }

  lemma Halves(x: bv32)
    ensures Glued(HighBits(x), x) == x && Eighteen(HighBits(x)) == HighBits(x)
  {
  }

  function TopBitsSet(x: bv32): bv32 {
    0xc000 | (x & 0x3fff)
  }

  lemma RangeIs(random: bv32)
    ensures RangeBits(random) == TopBitsSet(random)
  {
  }

  lemma TopBitsNumber(x: bv32)
    ensures AsNat(TopBitsSet(x)) == START + AsNat(LowBits(x))
  {
  }

  /** The mask keeps fourteen bits, and these become a port of the range. */
  lemma EnsureRange(random: bv32)
    ensures AsNat(RangeBits(random)) == START + AsNat(random) % COUNT && InRange(AsNat(RangeBits(random)))
  {
    hide AsNat, RangeBits, LowBits, HighBits, Eighteen, Glued, TopBitsSet;
    RangeIs(random);
    TopBitsNumber(random);
    Halves(random);
    GluedNumber(HighBits(random), random);
  }

  function Step(port: nat): nat {
    if port == END then START else port + 1
  }

  /** The k-th port tried after `port`. */
  function Tried(port: nat, k: nat): nat {
    if k == 0 then port else Step(Tried(port, k - 1))
  }

  predicate InRange(port: nat) {
    START <= port <= END
  }

  lemma {:induction false} TriedIs(port: nat, k: nat)
    requires InRange(port) && k <= COUNT
    ensures Tried(port, k) == if port + k <= END then port + k else port + k - COUNT
    ensures InRange(Tried(port, k))
  {
    if k > 0 {
      TriedIs(port, k - 1);
    }
  }

  lemma TriedStep(port: nat, k: nat)
    ensures Tried(port, k + 1) == Step(Tried(port, k))
    ensures Tried(port, 0) == port
  {
  }

  lemma Reached(port: nat, q: nat) returns (k: nat)
    requires InRange(port) && InRange(q)
    ensures 1 <= k <= COUNT && Tried(port, k) == q
  {
    k := if q > port then q - port else q - port + COUNT;
    TriedIs(port, k);
  }

  /** The whole range is taken. */
  ghost predicate Full(used: set<nat>) {
    forall q: nat :: InRange(q) ==> q in used
  }

  /** The first n ports after `port` are taken. */
  ghost predicate AllFail(used: set<nat>, port: nat, n: nat) {
    forall k :: 1 <= k <= n ==> Tried(port, k) in used
  }

  /** COUNT tries reach every port of the range, so all tries fail exactly when the whole range is taken. */
  lemma AllTried(used: set<nat>, port: nat)
    requires InRange(port)
    ensures AllFail(used, port, COUNT) <==> Full(used)
  {
    if AllFail(used, port, COUNT) {
      forall q: nat | InRange(q) ensures q in used {
        var k := Reached(port, q);
      }
    }
    if Full(used) {
      forall k | 1 <= k <= COUNT ensures Tried(port, k) in used {
        TriedIs(port, k);
      }
    }
  }

  lemma NotFull(used: set<nat>, port: nat)
    requires InRange(port) && port !in used
    ensures !Full(used)
  {
  }

  lemma OneMore(used: set<nat>, port: nat, n: nat)
    ensures AllFail(used, port, 0)
    ensures AllFail(used, port, n) && Tried(port, n + 1) in used ==> AllFail(used, port, n + 1)
  {
  }

  // ---------------------------------------------------------------- the list of bound blocks

  class Pcb {
    var localPort: nat
    var next: Pcb?

    constructor ()
      ensures localPort == 0 && next == null
    {
      localPort := 0;
      next := null;
    }
  }

  class Ports {
    var pcbs: Pcb?
    /** The static port of new_port, 0 until it is first called. */
    var cursor: nat
    ghost var list: seq<Pcb>

    ghost predicate Linked(i: nat)
      requires i < |list|
      reads `list, list
    {
      list[i].next == if i + 1 < |list| then list[i + 1] else null
    }

    ghost predicate Chain()
      reads `pcbs, `list, list
    {
      && pcbs == (if list == [] then null else list[0])
      && (forall i :: 0 <= i < |list| ==> Linked(i))
      && (forall i, j :: 0 <= i < j < |list| ==> list[i] != list[j])
    }

    /** Every bound block has a port, and no two have the same. */
    ghost predicate Distinct()
      reads `list, list
    {
      && (forall i :: 0 <= i < |list| ==> list[i].localPort != 0)
      && (forall i, j :: 0 <= i < j < |list| ==> list[i].localPort != list[j].localPort)
    }

    ghost predicate Valid()
      reads this, list
    {
      Chain() && Distinct() && (cursor == 0 || InRange(cursor))
    }

    ghost function Used(): (s: set<nat>)
      reads `list, list
      ensures forall p :: p in s <==> exists i :: 0 <= i < |list| && list[i].localPort == p
    {
      set i | 0 <= i < |list| :: list[i].localPort
    }

    constructor ()
      ensures Valid() && list == [] && cursor == 0
    {
      pcbs := null;
      cursor := 0;
      list := [];
    }

    /** The inner loop of new_port. */
    method IsUsed(port: nat) returns (found: bool)
      requires Valid()
      ensures found <==> port in Used()
    {
      var pcb := pcbs;
      ghost var i := 0;
      while pcb != null
        invariant 0 <= i <= |list| && pcb == (if i < |list| then list[i] else null)
        invariant forall j :: 0 <= j < i ==> list[j].localPort != port
        decreases |list| - i
      {
        if pcb.localPort == port {
          return true;
        }
        assert Linked(i);
        pcb := pcb.next;
        i := i + 1;
      }
      return false;
    }

    /** One turn of the outer loop of new_port: the next port of the range, and whether a block has it. */
    method TryNext() returns (found: bool)
      requires Valid() && InRange(cursor)
      modifies `cursor
      ensures Valid() && Used() == old(Used())
      ensures cursor == Step(old(cursor)) && InRange(cursor) && (found <==> cursor in Used())
    {
      hide Used, Chain, Distinct;
      cursor := if cursor == END then START else cursor + 1;
      found := IsUsed(cursor);
    }

    /** new_port: the first free port after the cursor, 0 exactly when the whole range is taken.  `random` is
        what rand() gives, if it is asked. */
    method NewPort(random: bv32) returns (port: nat)
      requires Valid()
      modifies `cursor
      ensures Valid() && InRange(cursor)
      ensures port == 0 <==> Full(Used())
      ensures port != 0 ==> InRange(port) && port !in Used() && cursor == port
      ensures port != 0 ==>
        var from := if old(cursor) == 0 then START + AsNat(random) % COUNT else old(cursor);
        exists k: nat :: k < COUNT && port == Tried(from, k + 1) && AllFail(Used(), from, k)
    {
      hide Chain, Distinct, Tried, AllFail, Full, Used, AsNat, RangeBits, Step;
      if cursor == 0 {
        EnsureRange(random);
        cursor := AsNat(RangeBits(random));
      }
      ghost var from, used := cursor, Used();
      AllTried(used, from);
      TriedStep(from, 0);
      var n: nat := 0;
      OneMore(used, from, n);
      while true
        invariant 0 <= n < COUNT && InRange(cursor) && cursor == Tried(from, n) && Valid() && Used() == used
        invariant AllFail(used, from, n)
        decreases COUNT - n
      {
        TriedStep(from, n);
        var found := TryNext();
        if !found {
          NotFull(used, cursor);
          return cursor;
        }
        OneMore(used, from, n);
        n := n + 1;
        if n > END - START {
          return 0;
        }
      }
    }

    method Contains(pcb: Pcb) returns (found: bool)
      requires Valid()
      ensures found <==> pcb in list
    {
      var p := pcbs;
      ghost var i := 0;
      while p != null
        invariant 0 <= i <= |list| && p == (if i < |list| then list[i] else null)
        invariant forall j :: 0 <= j < i ==> list[j] != pcb
        decreases |list| - i
      {
        if p == pcb {
          return true;
        }
        assert Linked(i);
        p := p.next;
        i := i + 1;
      }
      return false;
    }

    ghost predicate TakenByOther(pcb: Pcb, port: nat)
      reads `list, list
    {
      exists i :: 0 <= i < |list| && list[i] != pcb && list[i].localPort == port
    }

    method OtherUses(pcb: Pcb, port: nat) returns (found: bool)
      requires Valid()
      ensures found <==> TakenByOther(pcb, port)
    {
      var p := pcbs;
      ghost var i := 0;
      while p != null
        invariant 0 <= i <= |list| && p == (if i < |list| then list[i] else null)
        invariant forall j :: 0 <= j < i ==> list[j] == pcb || list[j].localPort != port
        decreases |list| - i
      {
        if p != pcb && p.localPort == port {
          return true;
        }
        assert Linked(i);
        p := p.next;
        i := i + 1;
      }
      return false;
    }

    /** bind, also of a block that is bound already: no port is given twice. */
    method Bind(pcb: Pcb?, wanted: nat, random: bv32) returns (err: Err)
      requires Valid() && wanted < 0x1_0000
      modifies this, pcb
      ensures Valid()
      ensures err == Val <==> pcb == null
      ensures pcb != null ==>
        && (err == Use <==> wanted != 0 && old(TakenByOther(pcb, wanted)))
        && (err == Buf <==> wanted == 0 && Full(old(Used())))
      ensures err != Ok ==> list == old(list) && (pcb != null ==> pcb.localPort == old(pcb.localPort))
      ensures err == Ok ==>
        && list == (if pcb in old(list) then old(list) else [pcb] + old(list))
        && (if wanted != 0 then pcb.localPort == wanted else InRange(pcb.localPort) && pcb.localPort !in old(Used()))
    {
      hide Chain, Distinct, TakenByOther;
      if pcb == null {
        return Val;
      }
      var rebind := Contains(pcb);
      var port := wanted;
      if wanted == 0 {
        port := NewPort(random);
        if port == 0 {
          return Buf;
        }
        NotTaken(pcb, port);
      } else {
        var taken := OtherUses(pcb, wanted);
        if taken {
          return Use;
        }
      }
      SetPort(pcb, port, rebind);
      return Ok;
    }

    /** The end of bind: the port, and a place at the head of the list for a new block. */
    method SetPort(pcb: Pcb, port: nat, rebind: bool)
      requires Valid() && port != 0 && !TakenByOther(pcb, port) && (rebind <==> pcb in list)
      modifies this, pcb
      ensures Valid() && cursor == old(cursor) && pcb.localPort == port
      ensures list == (if pcb in old(list) then old(list) else [pcb] + old(list))
    {
      pcb.localPort := port;
      if !rebind {
        pcb.next := pcbs;
        pcbs := pcb;
        list := [pcb] + list;
      }
      forall i | 0 <= i < |list| ensures Linked(i) {
        assert rebind ==> old(Linked(i));
        assert !rebind && i > 0 ==> old(Linked(i - 1));
      }
    }

    lemma NotTaken(pcb: Pcb, port: nat)
      requires port !in Used()
      ensures !TakenByOther(pcb, port)
    {
    }

    /** remove: the block leaves the list if it is on it. */
    method Remove(pcb: Pcb)
      requires Valid()
      modifies `pcbs, `list, list
      ensures Valid() && list == Without(old(list), pcb)
      ensures forall p :: p in old(list) ==> p.localPort == old(p.localPort)
    {
      hide Without;
      if pcbs == pcb {
        WithoutAt(list, pcb, 0);
        DropHead();
        return;
      }
      var p, i := FindBefore(pcb);
      if p != null {
        WithoutAt(list, pcb, i + 1);
        Unlink(p, pcb, i);
      } else {
        WithoutAbsent(list, pcb);
      }
    }

    /** The loop of remove: the block in front of pcb. */
    method FindBefore(pcb: Pcb) returns (p: Pcb?, ghost i: nat)
      requires Valid() && pcbs != pcb
      ensures p == null ==> pcb !in list
      ensures p != null ==> i + 1 < |list| && list[i] == p && list[i + 1] == pcb
    {
      p, i := pcbs, 0;
      while p != null
        invariant 0 <= i <= |list| && p == (if i < |list| then list[i] else null)
        invariant forall j :: 0 <= j <= i && j < |list| ==> list[j] != pcb
        decreases |list| - i
      {
        assert Linked(i);
        if p.next == pcb {
          return;
        }
        p := p.next;
        i := i + 1;
      }
    }

    method DropHead()
      requires Valid() && pcbs != null
      modifies `pcbs, `list
      ensures Valid() && list == old(list)[1..]
    {
      assert Linked(0);
      pcbs := pcbs.next;
      list := list[1..];
      forall j | 0 <= j < |list| ensures Linked(j) {
        assert old(Linked(j + 1));
      }
    }

    method Unlink(p: Pcb, pcb: Pcb, ghost i: nat)
      requires Valid() && i + 1 < |list| && list[i] == p && list[i + 1] == pcb
      modifies `list, p`next
      ensures Valid() && list == old(list)[..i + 1] + old(list)[i + 2..]
    {
      assert Linked(i + 1);
      p.next := pcb.next;
      ghost var before := list;
      list := before[..i + 1] + before[i + 2..];
      CutAt(before, list, i);
      forall j | 0 <= j < |list| ensures Linked(j) {
        if j < i {
          assert old(Linked(j));
        } else if j > i {
          assert old(Linked(j + 1));
        }
      }
    }
  }

  lemma CutAt(before: seq<Pcb>, s: seq<Pcb>, i: nat)
    requires i + 1 < |before| && s == before[..i + 1] + before[i + 2..]
    ensures |s| == |before| - 1 && forall j :: 0 <= j < |s| ==> s[j] == before[if j <= i then j else j + 1]
  {
  }

  ghost function Without(list: seq<Pcb>, pcb: Pcb): seq<Pcb> {
    if list == [] then [] else (if list[0] == pcb then [] else [list[0]]) + Without(list[1..], pcb)
  }

  lemma {:induction false} WithoutAbsent(list: seq<Pcb>, pcb: Pcb)
    requires pcb !in list
    ensures Without(list, pcb) == list
    decreases |list|
  {
    if list != [] {
      WithoutAbsent(list[1..], pcb);
    }
  }

  lemma {:induction false} WithoutAt(list: seq<Pcb>, pcb: Pcb, k: nat)
    requires k < |list| && list[k] == pcb && forall i, j :: 0 <= i < j < |list| ==> list[i] != list[j]
    ensures Without(list, pcb) == list[..k] + list[k + 1..]
    decreases |list|
  {
    if k == 0 {
      WithoutAbsent(list[1..], pcb);
    } else {
      WithoutAt(list[1..], pcb, k - 1);
      assert list[..k] + list[k + 1..] == [list[0]] + (list[1..][..k - 1] + list[1..][k..]);
    }
  }
}
