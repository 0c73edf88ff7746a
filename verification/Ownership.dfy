/** Who owns the buffers that cross the C interface: the registry of shared buffers, the boxed ones, and the host
    (powder-ffi lib.rs). */
module Ownership {
  import opened Bytes

  /** The identity of a reference-counted buffer. */
  type Buf = nat

  datatype Region = Region(addr: nat, len: nat)

  /** A pointer the host has not freed yet, and what lies behind it. */
  datatype Handout = Handout(addr: nat, len: nat, shared: bool)

  type Registry = map<nat, seq<Buf>>

  /** Live buffers, the references held outside the registry (callers and the cache), the registry, live boxes by
      address, and the host's pointers. */
  datatype State =
    State(arcs: map<Buf, Region>, held: multiset<Buf>, registry: Registry, boxes: map<nat, nat>, out: multiset<Handout>)

  const START := State(map[], multiset{}, map[], map[], multiset{})

  // ---- the registry ----

  function ListAt(r: Registry, addr: nat): seq<Buf> { if addr in r then r[addr] else [] }

  function Added(r: Registry, addr: nat, b: Buf): Registry { r[addr := ListAt(r, addr) + [b]] }

  /** One reference fewer at `addr`; an entry does not stay empty. */
  function Released(r: Registry, addr: nat): Registry {
    if addr !in r then r
    else if |r[addr]| <= 1 then r - {addr}
    else r[addr := r[addr][..|r[addr]| - 1]]
  }

  predicate Registered(r: Registry, b: Buf) { exists a :: a in r && b in r[a] }

  /** A buffer nobody refers to any more is gone. */
  function Swept(arcs: map<Buf, Region>, held: multiset<Buf>, r: Registry): map<Buf, Region> {
    map b | b in arcs && (b in held || Registered(r, b)) :: arcs[b]
  }

  // ---- steps ----

  datatype Step =
    | Allocate(b: Buf, region: Region)
    | Share(b: Buf)
    | Drop(b: Buf)
    | HandOff(b: Buf)
    | FindJson(region: Region)
    | Free(h: Handout)

  predicate LiveAt(s: State, addr: nat) {
    addr in s.boxes || exists b :: b in s.arcs && s.arcs[b].addr == addr
  }

  /** The allocator never reuses a live address; references are cloned, dropped and handed on by who has one; the host
      frees what it was handed, once. */
  predicate Enabled(s: State, st: Step) {
    match st
    case Allocate(b, region) => b !in s.arcs && region.len > 0 && !LiveAt(s, region.addr)
    case Share(b) => b in s.held
    case Drop(b) => b in s.held
    case HandOff(b) => b in s.held && b in s.arcs
    case FindJson(region) => region.len > 0 && !LiveAt(s, region.addr)
    case Free(h) => h in s.out
  }

  function Next(s: State, st: Step): State
    requires Enabled(s, st)
  {
    match st
    case Allocate(b, region) => s.(arcs := s.arcs[b := region], held := s.held + multiset{b})
    case Share(b) => s.(held := s.held + multiset{b})
    case Drop(b) =>
      var held := s.held - multiset{b};
      s.(held := held, arcs := Swept(s.arcs, held, s.registry))
    case HandOff(b) =>
      var region := s.arcs[b];
      s.(held := s.held - multiset{b}, registry := Added(s.registry, region.addr, b),
         out := s.out + multiset{Handout(region.addr, region.len, true)})
    case FindJson(region) =>
      s.(boxes := s.boxes[region.addr := region.len], out := s.out + multiset{Handout(region.addr, region.len, false)})
    case Free(h) => Freed(s, h.addr).(out := s.out - multiset{h})
  }

  /** What the free call does to memory: it goes by the address alone. */
  function Freed(s: State, addr: nat): State {
    if addr in s.registry then
      var r := Released(s.registry, addr);
      s.(registry := r, arcs := Swept(s.arcs, s.held, r))
    else s.(boxes := s.boxes - {addr})
  }

  // ---- what every step keeps ----

  /** A registry entry lists one live buffer of that address, once for every pointer the host has to it. */
  predicate EntryOk(s: State, a: nat)
    requires a in s.registry
  {
    && s.registry[a] != []
    && var b := s.registry[a][0];
       && b in s.arcs && s.arcs[b].addr == a
       && (forall k :: 0 <= k < |s.registry[a]| ==> s.registry[a][k] == b)
       && s.out[Handout(a, s.arcs[b].len, true)] == |s.registry[a]|
  }

  predicate HandoutOk(s: State, h: Handout) {
    if h.shared then h.addr in s.registry && s.registry[h.addr] != [] && s.registry[h.addr][0] in s.arcs
                     && s.arcs[s.registry[h.addr][0]] == Region(h.addr, h.len)
    else h.addr in s.boxes && s.boxes[h.addr] == h.len && s.out[h] == 1
  }

  predicate Entries(s: State) { forall a :: a in s.registry ==> EntryOk(s, a) }

  ghost predicate Pointers(s: State) {
    && (forall h :: h in s.out ==> HandoutOk(s, h))
    && (forall a :: a in s.boxes ==> Handout(a, s.boxes[a], false) in s.out)
  }

  predicate Apart(s: State) {
    && (forall b, c :: b in s.arcs && c in s.arcs && s.arcs[b].addr == s.arcs[c].addr ==> b == c)
    && (forall b :: b in s.arcs ==> s.arcs[b].addr !in s.boxes)
  }

  ghost predicate Referred(s: State) {
    && (forall b :: b in s.held ==> b in s.arcs)
    && (forall b :: b in s.arcs ==> b in s.held || Registered(s.registry, b))
  }

  ghost predicate Inv(s: State) { Entries(s) && Pointers(s) && Apart(s) && Referred(s) }

  lemma StartInv()
    ensures Inv(START)
  {
  }

  /** A buffer is registered under its own address only. */
  lemma RegisteredAt(s: State, b: Buf)
    requires Inv(s) && b in s.arcs
    ensures Registered(s.registry, b) <==> s.arcs[b].addr in s.registry
  {
    if Registered(s.registry, b) {
      var a :| a in s.registry && b in s.registry[a];
      assert EntryOk(s, a);
    }
    if s.arcs[b].addr in s.registry {
      assert EntryOk(s, s.arcs[b].addr);
      assert s.registry[s.arcs[b].addr][0] == b;
    }
  }

  lemma AllocateApart(s: State, b: Buf, region: Region)
    requires Apart(s) && Enabled(s, Allocate(b, region))
    ensures Apart(Next(s, Allocate(b, region)))
  {
    forall c | c in s.arcs ensures s.arcs[c].addr != region.addr {}
  }

  lemma AllocateKeeps(s: State, b: Buf, region: Region)
    requires Inv(s) && Enabled(s, Allocate(b, region))
    ensures Inv(Next(s, Allocate(b, region)))
  {
    var t := Next(s, Allocate(b, region));
    assert Entries(t) by {
      forall a | a in t.registry ensures EntryOk(t, a) { assert EntryOk(s, a); }
    }
    assert Pointers(t) by {
      forall h | h in t.out ensures HandoutOk(t, h) { assert HandoutOk(s, h); }
    }
    AllocateApart(s, b, region);
    assert Referred(t);
  }

  lemma ShareKeeps(s: State, b: Buf)
    requires Inv(s) && Enabled(s, Share(b))
    ensures Inv(Next(s, Share(b)))
  {
    var t := Next(s, Share(b));
    assert Entries(t) by {
      forall a | a in t.registry ensures EntryOk(t, a) { assert EntryOk(s, a); }
    }
    assert Pointers(t) by {
      forall h | h in t.out ensures HandoutOk(t, h) { assert HandoutOk(s, h); }
    }
    assert Apart(t) && Referred(t);
  }

  lemma DropKeeps(s: State, b: Buf)
    requires Inv(s) && Enabled(s, Drop(b))
    ensures Inv(Next(s, Drop(b)))
  {
    var t := Next(s, Drop(b));
    assert Entries(t) by {
      forall a | a in t.registry ensures EntryOk(t, a) {
        assert EntryOk(s, a);
        assert s.registry[a][0] in s.registry[a];
      }
    }
    assert Pointers(t) by {
      forall h | h in t.out ensures HandoutOk(t, h) {
        assert HandoutOk(s, h);
        if h.shared { assert s.registry[h.addr][0] in s.registry[h.addr]; }
      }
    }
    assert Apart(t) && Referred(t);
  }

  lemma HandOffEntries(s: State, b: Buf)
    requires Inv(s) && Enabled(s, HandOff(b))
    ensures Entries(Next(s, HandOff(b)))
  {
    var t := Next(s, HandOff(b));
    var here, h0 := s.arcs[b].addr, Handout(s.arcs[b].addr, s.arcs[b].len, true);
    assert here in s.registry ==> EntryOk(s, here);
    assert h0 in s.out ==> HandoutOk(s, h0);
    forall a | a in t.registry ensures EntryOk(t, a) {
      if a != here { assert EntryOk(s, a); }
    }
  }

  lemma HandOffPointers(s: State, b: Buf)
    requires Inv(s) && Enabled(s, HandOff(b))
    ensures Pointers(Next(s, HandOff(b)))
  {
    var t := Next(s, HandOff(b));
    var here, h0 := s.arcs[b].addr, Handout(s.arcs[b].addr, s.arcs[b].len, true);
    assert here in s.registry ==> EntryOk(s, here);
    assert t.registry[here][0] == b;
    forall h | h in t.out ensures HandoutOk(t, h) {
      if h != h0 { assert HandoutOk(s, h); }
    }
    forall a | a in t.boxes ensures Handout(a, t.boxes[a], false) in t.out {
      assert Handout(a, s.boxes[a], false) in s.out;
    }
  }

  lemma HandOffKeeps(s: State, b: Buf)
    requires Inv(s) && Enabled(s, HandOff(b))
    ensures Inv(Next(s, HandOff(b)))
  {
    var t := Next(s, HandOff(b));
    HandOffEntries(s, b);
    HandOffPointers(s, b);
    var here := s.arcs[b].addr;
    assert t.registry[here][|t.registry[here]| - 1] == b;
    forall c | c in t.arcs ensures c in t.held || Registered(t.registry, c) {
      if c != b && c !in s.held {
        var a :| a in s.registry && c in s.registry[a];
        assert c in t.registry[a];
      }
    }
  }

  lemma FindJsonPointers(s: State, region: Region)
    requires Inv(s) && Enabled(s, FindJson(region))
    ensures Pointers(Next(s, FindJson(region)))
  {
    var t := Next(s, FindJson(region));
    var h0 := Handout(region.addr, region.len, false);
    forall h | h in s.out ensures h != h0 { assert HandoutOk(s, h); }
    forall h | h in t.out ensures HandoutOk(t, h) {
      if h != h0 { assert HandoutOk(s, h); }
    }
  }

  lemma FindJsonKeeps(s: State, region: Region)
    requires Inv(s) && Enabled(s, FindJson(region))
    ensures Inv(Next(s, FindJson(region)))
  {
    var t := Next(s, FindJson(region));
    FindJsonPointers(s, region);
    assert Entries(t) by {
      forall a | a in t.registry ensures EntryOk(t, a) { assert EntryOk(s, a); }
    }
    assert Apart(t) && Referred(t);
  }

  lemma OtherRegistered(s: State, here: nat, c: Buf)
    requires here in s.registry && s.registry[here] != [] && forall k :: 0 <= k < |s.registry[here]| ==> s.registry[here][k] != c
    ensures Registered(Released(s.registry, here), c) == Registered(s.registry, c)
  {
    var r := Released(s.registry, here);
    if Registered(s.registry, c) {
      var a :| a in s.registry && c in s.registry[a];
      assert a in r && c in r[a];
    }
    if Registered(r, c) {
      var a :| a in r && c in r[a];
      assert a in s.registry && c in s.registry[a];
    }
  }

  /** One reference fewer at an address leaves every other buffer as registered as it was. */
  lemma FreeShared(s: State, h0: Handout)
    requires Inv(s) && h0 in s.out && h0.shared
    ensures h0.addr in s.registry && EntryOk(s, h0.addr) && HandoutOk(s, h0)
    ensures var t := Next(s, Free(h0)); var b := s.registry[h0.addr][0];
            && (forall c :: c in s.arcs && c != b ==> Registered(t.registry, c) == Registered(s.registry, c))
            && (h0.addr in t.registry ==> b in t.registry[h0.addr])
            && (h0.addr in t.registry <==> s.out[h0] > 1)
            && forall a :: a != h0.addr ==> (a in t.registry <==> a in s.registry) && (a in s.registry ==> t.registry[a] == s.registry[a])
  {
    assert HandoutOk(s, h0) && EntryOk(s, h0.addr);
    var b := s.registry[h0.addr][0];
    forall c | c in s.arcs && c != b ensures Registered(Released(s.registry, h0.addr), c) == Registered(s.registry, c) {
      OtherRegistered(s, h0.addr, c);
    }
  }

  lemma FreeSharedEntry(s: State, h0: Handout, a: nat)
    requires Inv(s) && h0 in s.out && h0.shared && a in Next(s, Free(h0)).registry
    ensures EntryOk(Next(s, Free(h0)), a)
  {
    var t := Next(s, Free(h0));
    FreeShared(s, h0);
    assert EntryOk(s, a);
    assert t.registry[a][0] == s.registry[a][0] && s.registry[a][0] in t.registry[a];
  }

  lemma FreeSharedEntries(s: State, h0: Handout)
    requires Inv(s) && h0 in s.out && h0.shared
    ensures Entries(Next(s, Free(h0)))
  {
    var t := Next(s, Free(h0));
    FreeShared(s, h0);
    forall a | a in t.registry ensures EntryOk(t, a) {
      FreeSharedEntry(s, h0, a);
    }
  }

  lemma FreeSharedPointers(s: State, h0: Handout)
    requires Inv(s) && h0 in s.out && h0.shared
    ensures Pointers(Next(s, Free(h0)))
  {
    var t := Next(s, Free(h0));
    FreeShared(s, h0);
    forall h | h in t.out ensures HandoutOk(t, h) {
      assert HandoutOk(s, h);
      if h.shared {
        assert EntryOk(s, h.addr);
        if h.addr != h0.addr { assert s.registry[h.addr][0] in t.registry[h.addr]; }
      }
    }
    forall a | a in t.boxes ensures Handout(a, t.boxes[a], false) in t.out {
      assert Handout(a, s.boxes[a], false) in s.out;
    }
  }

  lemma FreeSharedKeeps(s: State, h0: Handout)
    requires Inv(s) && h0 in s.out && h0.shared
    ensures Inv(Next(s, Free(h0)))
  {
    FreeShared(s, h0);
    FreeSharedEntries(s, h0);
    FreeSharedPointers(s, h0);
  }

  lemma BoxNotRegistered(s: State, addr: nat)
    requires Inv(s) && addr in s.boxes
    ensures addr !in s.registry
  {
    forall a | a in s.registry ensures a !in s.boxes { assert EntryOk(s, a); }
  }

  lemma FreeBoxedKeeps(s: State, h0: Handout)
    requires Inv(s) && h0 in s.out && !h0.shared
    ensures Inv(Next(s, Free(h0)))
  {
    var t := Next(s, Free(h0));
    assert HandoutOk(s, h0);
    BoxNotRegistered(s, h0.addr);
    assert t.out[h0] == 0;
    assert Entries(t) by {
      forall a | a in t.registry ensures EntryOk(t, a) { assert EntryOk(s, a); }
    }
    assert Pointers(t) by {
      forall h | h in t.out ensures HandoutOk(t, h) {
        assert HandoutOk(s, h) && h != h0;
        assert h.shared || h.addr != h0.addr;
      }
    }
    assert Apart(t) && Referred(t);
  }

  lemma StepKeeps(s: State, st: Step)
    requires Inv(s) && Enabled(s, st)
    ensures Inv(Next(s, st))
  {
    match st
    case Allocate(b, region) => AllocateKeeps(s, b, region);
    case Share(b) => ShareKeeps(s, b);
    case Drop(b) => DropKeeps(s, b);
    case HandOff(b) => HandOffKeeps(s, b);
    case FindJson(region) => FindJsonKeeps(s, region);
    case Free(h) => if h.shared { FreeSharedKeeps(s, h); } else { FreeBoxedKeeps(s, h); }
  }

  // ---- every run ----

  predicate Run(s: State, steps: seq<Step>)
    decreases |steps|
  {
    steps == [] || (Enabled(s, steps[0]) && Run(Next(s, steps[0]), steps[1..]))
  }

  function After(s: State, steps: seq<Step>): State
    requires Run(s, steps)
    decreases |steps|
  {
    if steps == [] then s else After(Next(s, steps[0]), steps[1..])
  }

  lemma {:induction false} RunKeeps(s: State, steps: seq<Step>)
    requires Inv(s) && Run(s, steps)
    ensures Inv(After(s, steps))
    decreases |steps|
  {
    if steps != [] {
      StepKeeps(s, steps[0]);
      RunKeeps(Next(s, steps[0]), steps[1..]);
    }
  }

  /** In every run: the registry holds one reference for each pointer the host has to an address, the memory behind
      every such pointer is live and as long as reported, and freeing it takes the branch of its own kind. */
  lemma HandedOutIsLive(steps: seq<Step>, h: Handout)
    requires Run(START, steps) && h in After(START, steps).out
    ensures var s := After(START, steps);
            && (h.shared <==> h.addr in s.registry)
            && (h.shared ==> exists b :: b in s.arcs && s.arcs[b] == Region(h.addr, h.len) && |s.registry[h.addr]| == s.out[h]
                                          && forall k :: 0 <= k < |s.registry[h.addr]| ==> s.registry[h.addr][k] == b)
            && (!h.shared ==> h.addr in s.boxes && s.boxes[h.addr] == h.len && s.out[h] == 1)
            && forall other :: other in s.out && other.addr == h.addr ==> other == h
  {
    StartInv();
    RunKeeps(START, steps);
    var s := After(START, steps);
    assert HandoutOk(s, h);
    if h.shared {
      assert EntryOk(s, h.addr);
    } else {
      BoxNotRegistered(s, h.addr);
    }
    forall other | other in s.out && other.addr == h.addr ensures other == h {
      assert HandoutOk(s, other);
      if !other.shared { BoxNotRegistered(s, other.addr); }
    }
  }

  /** The host has a pointer to everything the registry or a box keeps. */
  lemma EachHasPointer(s: State)
    requires Inv(s)
    ensures forall a :: a in s.registry || a in s.boxes ==> exists h :: h in s.out && h.addr == a
  {
    forall a | a in s.registry ensures exists h :: h in s.out && h.addr == a {
      assert EntryOk(s, a);
      assert Handout(a, s.arcs[s.registry[a][0]].len, true) in s.out;
    }
    forall a | a in s.boxes ensures exists h :: h in s.out && h.addr == a {
      assert Handout(a, s.boxes[a], false) in s.out;
    }
  }

  /** Nothing leaks: once the host has freed everything, no box is left and buffers live only where they are held. */
  lemma NothingLeaks(steps: seq<Step>)
    requires Run(START, steps) && After(START, steps).out == multiset{}
    ensures var s := After(START, steps); s.registry == map[] && s.boxes == map[] && forall b :: b in s.arcs ==> b in s.held
  {
    StartInv();
    RunKeeps(START, steps);
    var s := After(START, steps);
    EachHasPointer(s);
    assert s.registry.Keys == {} && s.boxes.Keys == {};
    forall b | b in s.arcs ensures b in s.held {
      RegisteredAt(s, b);
    }
  }

  /** Freeing the last pointer to a shared buffer a second time would reach for a box that is not there. */
  lemma FreedTwice(s: State, h: Handout)
    requires Inv(s) && h in s.out && h.shared && s.out[h] == 1
    ensures var t := Next(s, Free(h)); h.addr !in t.registry && h.addr !in t.boxes
  {
    assert HandoutOk(s, h) && EntryOk(s, h.addr);
    forall a | a in s.boxes ensures a !in s.registry { BoxNotRegistered(s, a); }
  }

  // ---- the calls ----

  class Ffi {
    /** `shared_bufs()`, and the boxes that `Box::into_raw` has let go of. */
    var registry: Registry
    var boxes: map<nat, nat>

    method ReleaseSharedBuf(addr: nat) returns (found: bool)
      modifies this`registry
      ensures found == (addr in old(registry)) && registry == Released(old(registry), addr)
    {
      if addr in registry {
        var v := registry[addr];
        if |v| > 0 { v := v[..|v| - 1]; }
        registry := registry[addr := v];
        if v == [] {
          registry := registry - {addr};
          assert registry == old(registry) - {addr};
        }
        return true;
      }
      return false;
    }

    /** The end of `powder_query`: the reference goes into the registry, the pointer to the host. */
    method HandOut(b: Buf, region: Region) returns (ptr: nat, outLen: nat)
      requires region.len > 0
      modifies this`registry
      ensures registry == Added(old(registry), region.addr, b) && ptr == region.addr && outLen == region.len
    {
      var v := if region.addr in registry then registry[region.addr] else [];
      registry := registry[region.addr := v + [b]];
      ptr, outLen := region.addr, region.len;
    }

    method PowderFreeBuffer(ghost s: State, addr: nat, len: nat)
      requires registry == s.registry && boxes == s.boxes
      modifies this`registry, this`boxes
      ensures len == 0 || addr == 0 ==> registry == s.registry && boxes == s.boxes
      ensures len > 0 && addr != 0 ==> registry == Freed(s, addr).registry && boxes == Freed(s, addr).boxes
    {
      if addr == 0 || len == 0 {
        return;
      }
      var shared := ReleaseSharedBuf(addr);
      if shared {
        return;
      }
      boxes := boxes - {addr};
    }
  }
}
