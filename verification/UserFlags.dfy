/**
 The table of user-flag names of a mailbox and the bit set of each message: append_fromstage,
 append_fromstream and append_copy look a name up, give it a free slot if it has none, and set its bit.
 */
module UserFlags {
  import opened Wrappers
  import opened Letters

  const MAX_USER_FLAGS: nat := 128
  const WORDS: nat := 4

  /** strcasecmp(a, b) == 0 */
  predicate SameName(a: string, b: string) {
    |a| == |b| && forall i :: 0 <= i < |a| ==> Lower(a[i]) == Lower(b[i])
  }

  /** Two names are the same if they differ at most in the case of letters, whose codes are 32 apart. */
  lemma SameNameIff(a: string, b: string)
    ensures SameName(a, b) <==>
            |a| == |b| && forall i :: 0 <= i < |a| ==>
              || a[i] == b[i]
              || ('A' <= a[i] <= 'Z' && b[i] as int == a[i] as int + 32)
              || ('A' <= b[i] <= 'Z' && a[i] as int == b[i] as int + 32)
  {
  }

  type Slots = seq<Option<string>>

  predicate Holds(slots: Slots, i: nat, name: string) {
    i < |slots| && slots[i].Some? && SameName(name, slots[i].value)
  }

  /** The first slot at or after `from` that holds the name, and the first free one. */
  function FindName(slots: Slots, from: nat, name: string): (r: Option<nat>)
    requires from <= |slots|
    ensures r.Some? ==> from <= r.value < |slots| && Holds(slots, r.value, name)
    ensures forall i :: from <= i < (if r.Some? then r.value else |slots|) ==> !Holds(slots, i, name)
    decreases |slots| - from
  {
    if from == |slots| then None
    else if Holds(slots, from, name) then Some(from)
    else FindName(slots, from + 1, name)
  }

  function FindFree(slots: Slots, from: nat): (r: Option<nat>)
    requires from <= |slots|
    ensures r.Some? ==> from <= r.value < |slots| && slots[r.value] == None
    ensures forall i :: from <= i < (if r.Some? then r.value else |slots|) ==> slots[i].Some?
    decreases |slots| - from
  {
    if from == |slots| then None
    else if slots[from] == None then Some(from)
    else FindFree(slots, from + 1)
  }

  /** The slot a requested flag gets: its own, else a free one, else none. */
  function SlotFor(slots: Slots, name: string): Option<nat> {
    if FindName(slots, 0, name).Some? then FindName(slots, 0, name) else FindFree(slots, 0)
  }

  function WithName(slots: Slots, name: string): (r: Slots)
    ensures |r| == |slots|
  {
    if FindName(slots, 0, name).None? && FindFree(slots, 0).Some? then slots[FindFree(slots, 0).value := Some(name)]
    else slots
  }

  /** The table and the set of slots after all flags requested for one message. */
  function Requested(slots: Slots, names: seq<string>): (Slots, set<nat>) {
    if names == [] then (slots, {})
    else
      var (slots', bits) := Requested(slots, names[..|names| - 1]);
      var name := names[|names| - 1];
      (WithName(slots', name), bits + (if SlotFor(slots', name).Some? then {SlotFor(slots', name).value} else {}))
  }

  lemma RequestedOneMore(slots: Slots, names: seq<string>, name: string)
    ensures var (mid, bits) := Requested(slots, names);
            Requested(slots, names + [name]) ==
            (WithName(mid, name), bits + (if SlotFor(mid, name).Some? then {SlotFor(mid, name).value} else {}))
  {
    assert (names + [name])[..|names|] == names;
  }

  /** Adding a name takes no slot away from another one. */
  lemma WithNameAdds(slots: Slots, name: string)
    ensures Keeps(slots, WithName(slots, name))
  {
  }

  /** What has been added to a table does not go away again. */
  lemma AddedForGood(a: Slots, b: Slots, c: Slots)
    requires Keeps(a, b) && Keeps(b, c) && a != b
    ensures a != c
  {
    if a == c {
      forall i | 0 <= i < |a| ensures a[i] == b[i] {
        assert KeptAt(a, b, i) && KeptAt(b, c, i);
      }
    }
  }

  /** A name that was added is found again, in whatever case. */
  lemma FoundAgain(slots: Slots, name: string, again: string)
    requires NoDuplicates(slots) && SameName(name, again) && SlotFor(slots, name).Some?
    ensures SlotFor(WithName(slots, name), again) == SlotFor(slots, name)
    ensures WithName(WithName(slots, name), again) == WithName(slots, name)
  {
    var slots', i := WithName(slots, name), SlotFor(slots, name).value;
    WithNameKeeps(slots, name);
    SameNameSymmetric(name, again);
    SameNameTransitive(again, name, slots'[i].value);
    assert Holds(slots', i, again);
    HoldsOnce(slots', i, FindName(slots', 0, again).value, again);
  }

  /** No two slots hold names that are equal up to case. */
  predicate NoDuplicates(slots: Slots) {
    forall i, j :: 0 <= i < j < |slots| ==> !Clash(slots, i, j)
  }

  predicate Clash(slots: Slots, i: nat, j: nat)
    requires i < |slots| && j < |slots|
  {
    slots[i].Some? && slots[j].Some? && SameName(slots[i].value, slots[j].value)
  }

  /** Occupied slots keep their names. */
  predicate Keeps(before: Slots, after: Slots) {
    |before| == |after| && forall i :: 0 <= i < |before| ==> KeptAt(before, after, i)
  }

  predicate KeptAt(before: Slots, after: Slots, i: nat)
    requires i < |before| == |after|
  {
    before[i].Some? ==> after[i] == before[i]
  }

  lemma KeepsOnward(a: Slots, b: Slots, c: Slots)
    requires Keeps(a, b) && Keeps(b, c)
    ensures Keeps(a, c)
  {
    forall i | 0 <= i < |a| ensures KeptAt(a, c, i) {
      assert KeptAt(a, b, i) && KeptAt(b, c, i);
    }
  }

  lemma KeepsItself(a: Slots)
    ensures Keeps(a, a)
  {
  }

  /** One more name in a table that has grown out of `table`. */
  lemma OneMoreNameKept(table: Slots, now: Slots, name: string)
    requires Keeps(table, now)
    ensures Keeps(table, WithName(now, name)) && (now != table || WithName(now, name) != now ==> WithName(now, name) != table)
  {
    WithNameAdds(now, name);
    KeepsOnward(table, now, WithName(now, name));
    if now != table {
      AddedForGood(table, now, WithName(now, name));
    }
  }

  predicate Full(slots: Slots) {
    forall i :: 0 <= i < |slots| ==> slots[i].Some?
  }

  lemma WithNameKeeps(slots: Slots, name: string)
    requires NoDuplicates(slots)
    ensures NoDuplicates(WithName(slots, name)) && Keeps(slots, WithName(slots, name))
    ensures var s := SlotFor(slots, name);
            if s.Some? then Holds(WithName(slots, name), s.value, name) else Full(slots)
    ensures forall i: nat :: Holds(WithName(slots, name), i, name) ==> SlotFor(slots, name) == Some(i)
  {
    var slots' := WithName(slots, name);
    forall i, j | 0 <= i < j < |slots'| ensures !Clash(slots', i, j) {
      assert !Clash(slots, i, j);
      if slots' != slots && Clash(slots', i, j) {
        var e := FindFree(slots, 0).value;
        assert !Holds(slots, i, name) && !Holds(slots, j, name);
        if j == e { SameNameSymmetric(slots'[i].value, name); }
      }
    }
    forall i: nat | Holds(slots', i, name) ensures SlotFor(slots, name) == Some(i) {
      HoldsOnce(slots', i, SlotFor(slots, name).value, name);
    }
  }

  lemma HoldsOnce(slots: Slots, i: nat, j: nat, name: string)
    requires NoDuplicates(slots) && Holds(slots, i, name) && Holds(slots, j, name)
    ensures i == j
  {
    var a, b := slots[i].value, slots[j].value;
    SameNameSymmetric(name, a);
    SameNameTransitive(a, name, b);
    SameNameSymmetric(a, b);
    assert i != j ==> !Clash(slots, if i < j then i else j, if i < j then j else i);
  }

  lemma SameNameSymmetric(a: string, b: string)
    ensures SameName(a, b) == SameName(b, a)
  {
  }

  lemma SameNameTransitive(a: string, b: string, c: string)
    requires SameName(a, b) && SameName(b, c)
    ensures SameName(a, c)
  {
  }

  /** The names a set of slots stands for include `name`. */
  predicate Marked(slots: Slots, bits: set<nat>, name: string) {
    exists i: nat :: i in bits && Holds(slots, i, name)
  }

  predicate AskedFor(names: seq<string>, slot: Option<string>) {
    slot.Some? && exists k :: 0 <= k < |names| && SameName(names[k], slot.value)
  }

  lemma {:induction false} RequestedKeeps(slots: Slots, names: seq<string>)
    requires NoDuplicates(slots)
    ensures var (slots', bits) := Requested(slots, names);
            NoDuplicates(slots') && Keeps(slots, slots') && forall i :: i in bits ==> i < |slots'|
    decreases |names|
  {
    if names != [] {
      var mid := Requested(slots, names[..|names| - 1]).0;
      RequestedKeeps(slots, names[..|names| - 1]);
      WithNameKeeps(mid, names[|names| - 1]);
      KeepsOnward(slots, mid, WithName(mid, names[|names| - 1]));
    }
  }

  lemma {:induction false} RequestedBit(slots: Slots, names: seq<string>, i: nat)
    requires NoDuplicates(slots) && i < |slots|
    ensures |Requested(slots, names).0| == |slots|
    ensures i in Requested(slots, names).1 <==> AskedFor(names, Requested(slots, names).0[i])
    decreases |names|
  {
    RequestedKeeps(slots, names);
    if names != [] {
      var before, name := names[..|names| - 1], names[|names| - 1];
      RequestedKeeps(slots, before);
      RequestedBit(slots, before, i);
      assert names == before + [name];
      OneMoreName(Requested(slots, before).0, before, name, i);
    }
  }

  lemma {:induction false} RequestedName(slots: Slots, names: seq<string>, k: nat)
    requires NoDuplicates(slots) && k < |names|
    ensures var (slots', bits) := Requested(slots, names); Marked(slots', bits, names[k]) || Full(slots')
    decreases |names|
  {
    var before, name := names[..|names| - 1], names[|names| - 1];
    var (mid, bits0) := Requested(slots, before);
    var (slots', bits) := Requested(slots, names);
    RequestedKeeps(slots, before);
    WithNameKeeps(mid, name);
    if k < |names| - 1 {
      RequestedName(slots, before, k);
      StillMarked(mid, slots', bits0, bits, names[k]);
    } else {
      LastIsMarked(mid, bits0, name);
    }
  }

  /**
   Over all flags requested for one message: the table stays free of duplicates and keeps what it had;
   the message's slots are exact.
   */
  lemma RequestedMeans(slots: Slots, names: seq<string>)
    requires NoDuplicates(slots)
    ensures var (slots', bits) := Requested(slots, names);
            NoDuplicates(slots') && Keeps(slots, slots') && Exact(slots', names, bits)
  {
    var (slots', bits) := Requested(slots, names);
    RequestedKeeps(slots, names);
    forall i | 0 <= i < |slots'| ensures ExactAt(slots', names, bits, i) {
      RequestedBit(slots, names, i);
    }
    forall k | 0 <= k < |names| ensures Marked(slots', bits, names[k]) || Full(slots') {
      RequestedName(slots, names, k);
    }
  }

  /**
   A set of slots is exactly the occupied slots whose name was asked for, and a name that was asked for
   is left out only when the table is full.
   */
  ghost predicate Exact(slots: Slots, names: seq<string>, bits: set<nat>) {
    && (forall i :: i in bits ==> i < |slots|)
    && (forall i :: 0 <= i < |slots| ==> ExactAt(slots, names, bits, i))
    && (forall k {:trigger Marked(slots, bits, names[k])} :: 0 <= k < |names| ==> Marked(slots, bits, names[k]) || Full(slots))
  }

  /** A name that was asked for does not turn up later in a slot that was free then. */
  lemma FreeSlotLater(slots: Slots, names: seq<string>, bits: set<nat>, later: Slots, i: nat, k: nat)
    requires Keeps(slots, later) && NoDuplicates(later)
    requires i < |slots| && slots[i] == None && k < |names| && Marked(slots, bits, names[k])
    ensures !Holds(later, i, names[k])
  {
    var j: nat :| j in bits && Holds(slots, j, names[k]);
    assert KeptAt(slots, later, j) && Holds(later, j, names[k]);
    if Holds(later, i, names[k]) {
      HoldsOnce(later, i, j, names[k]);
    }
  }

  predicate ExactAt(slots: Slots, names: seq<string>, bits: set<nat>, i: nat)
    requires i < |slots|
  {
    i in bits <==> AskedFor(names, slots[i])
  }

  /** Names that are given slots later do not change what an earlier set of slots stands for. */
  lemma ExactLater(slots: Slots, names: seq<string>, bits: set<nat>, later: Slots)
    requires Exact(slots, names, bits)
    requires Keeps(slots, later) && NoDuplicates(later)
    ensures Exact(later, names, bits)
  {
    forall i | 0 <= i < |later| ensures ExactAt(later, names, bits, i) {
      assert KeptAt(slots, later, i) && ExactAt(slots, names, bits, i);
      if slots[i] == None && AskedFor(names, later[i]) {
        var k :| 0 <= k < |names| && SameName(names[k], later[i].value);
        FreeSlotLater(slots, names, bits, later, i, k);
      }
    }
    forall k | 0 <= k < |names| ensures Marked(later, bits, names[k]) || Full(later) {
      StillMarked(slots, later, bits, bits, names[k]);
    }
  }

  lemma LastIsMarked(mid: Slots, bits0: set<nat>, name: string)
    requires NoDuplicates(mid)
    ensures var s := SlotFor(mid, name);
            Marked(WithName(mid, name), bits0 + (if s.Some? then {s.value} else {}), name) || Full(WithName(mid, name))
  {
    WithNameKeeps(mid, name);
    var s := SlotFor(mid, name);
    if s.Some? {
      assert s.value in bits0 + {s.value} && Holds(WithName(mid, name), s.value, name);
    }
  }

  lemma StillMarked(mid: Slots, slots': Slots, bits0: set<nat>, bits: set<nat>, name: string)
    requires Keeps(mid, slots') && bits0 <= bits
    requires Marked(mid, bits0, name) || Full(mid)
    ensures Marked(slots', bits, name) || Full(slots')
  {
    if Marked(mid, bits0, name) {
      var i: nat :| i in bits0 && Holds(mid, i, name);
      assert KeptAt(mid, slots', i);
      assert i in bits && Holds(slots', i, name);
    } else {
      forall i | 0 <= i < |slots'| ensures slots'[i].Some? {
        assert KeptAt(mid, slots', i);
      }
    }
  }

  /** What one more requested name changes about one slot. */
  lemma OneMoreName(mid: Slots, names: seq<string>, name: string, i: nat)
    requires NoDuplicates(mid) && i < |mid|
    ensures AskedFor(names + [name], WithName(mid, name)[i]) <==> AskedFor(names, mid[i]) || SlotFor(mid, name) == Some(i)
  {
    WithNameKeeps(mid, name);
    var all, slot := names + [name], WithName(mid, name)[i];
    if AskedFor(all, slot) && mid[i].Some? {
      var k :| 0 <= k < |all| && SameName(all[k], slot.value);
      if k < |names| {
        assert SameName(names[k], slot.value);
      } else {
        assert Holds(WithName(mid, name), i, name);
      }
    }
    if AskedFor(names, mid[i]) {
      var k :| 0 <= k < |names| && SameName(names[k], slot.value);
      assert SameName(all[k], slot.value);
    }
    if SlotFor(mid, name) == Some(i) {
      assert SameName(all[|names|], slot.value);
    }
  }

  /** Bit b of a word. */
  predicate Bit(w: bv32, b: nat)
    requires b < 32
  {
    (w >> (b as bv32)) & 1 == 1
  }

  lemma BitOfVector(w: bv32, a: bv32, b: bv32)
    requires a < 32 && b < 32
    ensures ((w | (1 << a)) >> b) & 1 == 1 <==> a == b || (w >> b) & 1 == 1
  {
  }

  lemma SmallRoundTrip(a: nat)
    requires a < 32
    ensures (a as bv32) as int == a && a as bv32 < 32
  {
  }

  lemma SetBit(w: bv32, a: nat, b: nat)
    requires a < 32 && b < 32
    ensures Bit(w | (1 << (a as bv32)), b) <==> a == b || Bit(w, b)
  {
    SmallRoundTrip(a);
    SmallRoundTrip(b);
    BitOfVector(w, a as bv32, b as bv32);
  }

  lemma NoBits(b: nat)
    requires b < 32
    ensures !Bit(0, b)
  {
    SmallRoundTrip(b);
  }

  /** The slots a message's words stand for: bit i & 31 of word i / 32. */
  function Decoded(words: seq<bv32>): set<nat>
    requires |words| == WORDS
  {
    set i: nat | i < MAX_USER_FLAGS && Bit(words[i / 32], i % 32)
  }

  /** Slot i is set exactly if bit i % 32 of word i / 32 is. */
  lemma DecodedIff(words: seq<bv32>, i: nat)
    requires |words| == WORDS
    ensures i in Decoded(words) <==> i < 128 && (words[i / 32] >> ((i % 32) as bv32)) & 1 == 1
  {
  }

  /** `w'` is `w` with bit `a` set. */
  ghost predicate BitAdded(w: bv32, a: nat, w': bv32) {
    forall b: nat :: b < 32 ==> (Bit(w', b) <==> b == a || Bit(w, b))
  }

  lemma SetBitAdds(w: bv32, a: nat)
    requires a < 32
    ensures BitAdded(w, a, w | (1 << (a as bv32)))
  {
    forall b: nat | b < 32 ensures Bit(w | (1 << (a as bv32)), b) <==> b == a || Bit(w, b) {
      SetBit(w, a, b);
    }
  }

  lemma AddInWords(words: seq<bv32>, i: nat, w': bv32)
    requires |words| == WORDS && i < MAX_USER_FLAGS
    requires BitAdded(words[i / 32], i % 32, w')
    ensures Decoded(words[i / 32 := w']) == Decoded(words) + {i}
  {
    var words' := words[i / 32 := w'];
    forall j: nat | j < MAX_USER_FLAGS
      ensures Bit(words'[j / 32], j % 32) <==> j == i || Bit(words[j / 32], j % 32)
    {
      assert Bit(w', j % 32) <==> j % 32 == i % 32 || Bit(words[i / 32], j % 32);
    }
  }

  lemma FirstFound(slots: Slots, i: nat, name: string)
    requires i <= |slots| && forall k :: 0 <= k < i ==> !Holds(slots, k, name)
    requires i < |slots| ==> Holds(slots, i, name)
    ensures FindName(slots, 0, name) == if i < |slots| then Some(i) else None
  {
    var r := FindName(slots, 0, name);
    assert r.Some? ==> !(r.value < i);
  }

  lemma NoWords()
    ensures Decoded([0, 0, 0, 0]) == {}
  {
    forall i: nat | i < MAX_USER_FLAGS ensures !Bit([0, 0, 0, 0][i / 32], i % 32) {
      NoBits(i % 32);
    }
  }

  /** The scan of the table: the slot of the name, MAX_USER_FLAGS if it has none, and the first free slot on the way. */
  method ScanTable(flagname: array<Option<string>>, name: string) returns (userflag: nat, empty: int)
    requires flagname.Length == MAX_USER_FLAGS
    ensures FindName(flagname[..], 0, name) == if userflag < MAX_USER_FLAGS then Some(userflag) else None
    ensures userflag <= MAX_USER_FLAGS && -1 <= empty < MAX_USER_FLAGS
    ensures userflag == MAX_USER_FLAGS ==> FindFree(flagname[..], 0) == if empty == -1 then None else Some(empty)
  {
    ghost var slots := flagname[..];
    empty := -1;
    userflag := 0;
    while userflag < MAX_USER_FLAGS
      invariant userflag <= MAX_USER_FLAGS && -1 <= empty < userflag
      invariant forall i :: 0 <= i < userflag ==> !Holds(slots, i, name)
      invariant empty == -1 ==> forall i :: 0 <= i < userflag ==> slots[i].Some?
      invariant empty != -1 ==> slots[empty] == None && forall i :: 0 <= i < empty ==> slots[i].Some?
    {
      assert slots[userflag] == flagname[userflag];
      if flagname[userflag].Some? {
        if SameName(name, flagname[userflag].value) {
          break;
        }
      } else if empty == -1 {
        empty := userflag;
      }
      userflag := userflag + 1;
    }
    FirstFound(slots, userflag, name);
  }

  method WithBit(w: bv32, a: nat) returns (w': bv32)
    requires a < 32
    ensures BitAdded(w, a, w')
  {
    SetBitAdds(w, a);
    w' := w | (1 << (a as bv32));
  }

  /** user_flags[i/32] |= 1<<(i&31) */
  method OrBit(words: array<bv32>, i: nat)
    requires words.Length == WORDS && i < MAX_USER_FLAGS
    modifies words
    ensures Decoded(words[..]) == old(Decoded(words[..])) + {i}
  {
    ghost var before := words[..];
    var w := WithBit(words[i / 32], i % 32);
    words[i / 32] := w;
    AddInWords(before, i, w);
    assert words[..] == before[i / 32 := words[i / 32]];
  }

  /** One requested user flag: look its name up, give it a free slot if it has none, and set its bit. */
  method SetUserFlag(flagname: array<Option<string>>, words: array<bv32>, name: string) returns (created: bool)
    requires flagname.Length == MAX_USER_FLAGS && words.Length == WORDS
    modifies flagname, words
    ensures flagname[..] == WithName(old(flagname[..]), name)
    ensures created <==> flagname[..] != old(flagname[..])
    ensures var s := SlotFor(old(flagname[..]), name);
            Decoded(words[..]) == old(Decoded(words[..])) + (if s.Some? then {s.value} else {})
  {
    ghost var slots := flagname[..];
    var userflag, empty := ScanTable(flagname, name);
    created := false;
    if userflag == MAX_USER_FLAGS && empty != -1 {
      userflag := empty;
      flagname[userflag] := Some(name);
      assert flagname[..] == slots[userflag := Some(name)];
      created := true;
    }
    if userflag != MAX_USER_FLAGS {
      OrBit(words, userflag);
    }
  }

  /** The loop over the requested user flags of one message. */
  method SetUserFlags(flagname: array<Option<string>>, names: seq<string>) returns (words: array<bv32>, created: nat)
    requires flagname.Length == MAX_USER_FLAGS
    modifies flagname
    ensures fresh(words) && words.Length == WORDS
    ensures (flagname[..], Decoded(words[..])) == Requested(old(flagname[..]), names)
    ensures created == 0 <==> flagname[..] == old(flagname[..])
  {
    ghost var table := flagname[..];
    KeepsItself(table);
    words := new bv32[WORDS](_ => 0);
    created := 0;
    assert words[..] == [0, 0, 0, 0];
    NoWords();
    for n := 0 to |names|
      invariant words.Length == WORDS && fresh(words)
      invariant (flagname[..], Decoded(words[..])) == Requested(old(flagname[..]), names[..n])
      invariant Keeps(table, flagname[..]) && (created == 0 <==> flagname[..] == table)
    {
      assert names[..n + 1][..n] == names[..n];
      OneMoreNameKept(table, flagname[..], names[n]);
      var isNew := SetUserFlag(flagname, words, names[n]);
      if isNew {
        created := created + 1;
      }
    }
    assert names[..|names|] == names;
  }
}
