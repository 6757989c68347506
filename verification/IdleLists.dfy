/**
 The linked lists of idled as values: who is linked to whom, which list a node belongs to, and what
 putting a node into a list or taking it out does.
 */
module IdleLists {
  import opened Wrappers

  datatype Entry = Entry(pid: int, itime: int)

  /** The list of a mailbox, or the free list. */
  type Place = Option<string>

  const FREE: Place := None

  /** Every node with its link, its place and what it stands for; and the same links seen as lists. */
  datatype Shape<!N> = Shape(
    next: map<N, Option<N>>, place: map<N, Place>, info: map<N, Entry>,
    heads: map<Place, Option<N>>, lists: map<Place, seq<N>>)

  ghost function HeadOf<N>(s: seq<N>): Option<N> {
    if s == [] then None else Some(s[0])
  }

  ghost predicate LinkedAt<N>(next: map<N, Option<N>>, s: seq<N>, i: nat)
    requires i < |s|
  {
    s[i] in next && next[s[i]] == HeadOf(s[i + 1..])
  }

  ghost predicate PlacedAt<N>(place: map<N, Place>, s: seq<N>, w: Place, i: nat)
    requires i < |s|
  {
    s[i] in place && place[s[i]] == w
  }

  ghost predicate DifferAt<N>(s: seq<N>, i: nat, j: nat)
    requires i < |s| && j < |s|
  {
    s[i] != s[j]
  }

  /** A chain of links from `head` through the nodes of `s`, all of which are in place `w`. */
  ghost predicate Chain<N>(h: Shape<N>, head: Option<N>, s: seq<N>, w: Place) {
    && head == HeadOf(s)
    && (forall i :: 0 <= i < |s| ==> LinkedAt(h.next, s, i))
    && (forall i :: 0 <= i < |s| ==> PlacedAt(h.place, s, w, i))
    && (forall i, j :: 0 <= i < j < |s| ==> DifferAt(s, i, j))
  }

  ghost predicate ListOk<N>(h: Shape<N>, w: Place)
    requires w in h.lists && w in h.heads
  {
    Chain(h, h.heads[w], h.lists[w], w)
  }

  ghost predicate InPlace<N>(h: Shape<N>, n: N)
    requires n in h.place
  {
    h.place[n] in h.lists && n in h.lists[h.place[n]]
  }

  ghost predicate AllListsOk<N>(h: Shape<N>)
    requires h.heads.Keys == h.lists.Keys
  {
    forall w {:trigger ListOk(h, w)} :: w in h.lists ==> ListOk(h, w)
  }

  ghost predicate AllInPlace<N>(h: Shape<N>) {
    forall n {:trigger InPlace(h, n)} :: n in h.place ==> InPlace(h, n)
  }

  /** The nodes are partitioned between the free list and disjoint acyclic lists of mailboxes. */
  ghost predicate WellShaped<N>(h: Shape<N>) {
    && h.next.Keys == h.place.Keys == h.info.Keys && h.heads.Keys == h.lists.Keys && FREE in h.lists
    && AllListsOk(h) && AllInPlace(h)
  }

  /** The nodes of a place; a mailbox without a hash entry has none. */
  ghost function ListOf<N>(h: Shape<N>, w: Place): seq<N> {
    if w in h.lists then h.lists[w] else []
  }

  /** How many nodes are free. */
  ghost function FreeCount<N>(h: Shape<N>): nat {
    |ListOf(h, FREE)|
  }

  lemma PlaceOf<N>(h: Shape<N>, head: Option<N>, s: seq<N>, w: Place, n: N)
    requires Chain(h, head, s, w) && n in s
    ensures n in h.place && h.place[n] == w && n in h.next
  {
    var i :| 0 <= i < |s| && s[i] == n;
    assert PlacedAt(h.place, s, w, i) && LinkedAt(h.next, s, i);
  }

  /** Node `n` has the same link and place in `g`. */
  ghost predicate SameAt<N>(h: Shape<N>, g: Shape<N>, n: N) {
    n in h.place && n in g.place && g.place[n] == h.place[n] && n in h.next && n in g.next && g.next[n] == h.next[n]
  }

  /** So do all nodes of a place. */
  ghost predicate SameFor<N>(h: Shape<N>, g: Shape<N>, w: Place) {
    forall n {:trigger SameAt(h, g, n)} :: n in h.place ==> h.place[n] == w ==> SameAt(h, g, n)
  }

  lemma ChainKept<N>(h: Shape<N>, g: Shape<N>, head: Option<N>, s: seq<N>, w: Place)
    requires Chain(h, head, s, w) && SameFor(h, g, w)
    ensures Chain(g, head, s, w)
  {
    forall i | 0 <= i < |s| ensures LinkedAt(g.next, s, i) && PlacedAt(g.place, s, w, i) {
      assert LinkedAt(h.next, s, i) && PlacedAt(h.place, s, w, i);
      assert SameAt(h, g, s[i]);
    }
  }

  /** A new node in front of a chain. */
  lemma ChainPush<N>(h: Shape<N>, g: Shape<N>, head: Option<N>, s: seq<N>, w: Place, n: N)
    requires Chain(h, head, s, w) && SameFor(h, g, w)
    requires n !in h.place && n in g.next && n in g.place && g.next[n] == head && g.place[n] == w
    ensures Chain(g, Some(n), [n] + s, w)
  {
    ChainKept(h, g, head, s, w);
    var t := [n] + s;
    forall i | 0 <= i < |t| ensures LinkedAt(g.next, t, i) && PlacedAt(g.place, t, w, i) {
      assert t[i + 1..] == s[i..];
      assert i > 0 ==> LinkedAt(g.next, s, i - 1) && PlacedAt(g.place, s, w, i - 1);
    }
    forall i, j | 0 <= i < j < |t| ensures DifferAt(t, i, j) {
      if i == 0 {
        PlaceOf(h, head, s, w, t[j]);
      } else {
        assert DifferAt(s, i - 1, j - 1);
      }
    }
  }

  /** `g` differs from `h` in that node `x` is gone and the node before it, if any, is linked past it. */
  ghost predicate DroppedAt<N>(h: Shape<N>, g: Shape<N>, x: N, before: Option<N>, rest: Option<N>, n: N) {
    n != x && n in h.place ==>
      && n in g.place && g.place[n] == h.place[n]
      && n in g.next && n in h.next && g.next[n] == if Some(n) == before then rest else h.next[n]
  }

  lemma ChainDrop<N>(h: Shape<N>, g: Shape<N>, head: Option<N>, s: seq<N>, w: Place, i: nat)
    requires Chain(h, head, s, w) && i < |s|
    requires forall n :: n in s ==> DroppedAt(h, g, s[i], if i > 0 then Some(s[i - 1]) else None, HeadOf(s[i + 1..]), n)
    ensures var t := s[..i] + s[i + 1..]; Chain(g, HeadOf(t), t, w)
  {
    var t := s[..i] + s[i + 1..];
    forall j | 0 <= j < |t| ensures LinkedAt(g.next, t, j) && PlacedAt(g.place, t, w, j) {
      ChainDropAt(h, g, head, s, w, i, j);
    }
    forall j, l | 0 <= j < l < |t| ensures DifferAt(t, j, l) {
      assert DifferAt(s, if j < i then j else j + 1, if l < i then l else l + 1);
    }
  }

  lemma ChainDropAt<N>(h: Shape<N>, g: Shape<N>, head: Option<N>, s: seq<N>, w: Place, i: nat, j: nat)
    requires Chain(h, head, s, w) && i < |s| && j < |s| - 1
    requires forall n :: n in s ==> DroppedAt(h, g, s[i], if i > 0 then Some(s[i - 1]) else None, HeadOf(s[i + 1..]), n)
    ensures var t := s[..i] + s[i + 1..]; LinkedAt(g.next, t, j) && PlacedAt(g.place, t, w, j)
  {
    var t, m := s[..i] + s[i + 1..], if j < i then j else j + 1;
    assert t[j] == s[m] && s[m] in s;
    assert if m < i then DifferAt(s, m, i) else DifferAt(s, i, m);
    assert LinkedAt(h.next, s, m) && PlacedAt(h.place, s, w, m);
    if i > 0 && m != i - 1 {
      assert if m < i - 1 then DifferAt(s, m, i - 1) else DifferAt(s, i - 1, m);
    }
    assert DroppedAt(h, g, s[i], if i > 0 then Some(s[i - 1]) else None, HeadOf(s[i + 1..]), s[m]);
    if j + 1 == i {
      assert t[j + 1..] == s[i + 1..];
    } else if j < i {
      assert HeadOf(t[j + 1..]) == Some(s[j + 1]) == HeadOf(s[j + 1..]);
    } else {
      assert t[j + 1..] == s[m + 1..];
    }
  }

  /** No node of another place changes. */
  ghost predicate SameBut<N>(h: Shape<N>, g: Shape<N>, w: Place) {
    forall n {:trigger SameAt(h, g, n)} :: n in h.place ==> h.place[n] != w ==> SameAt(h, g, n)
  }

  /** Nothing changes for any place but `w`. */
  lemma ListsElsewhere<N>(h: Shape<N>, g: Shape<N>, w: Place)
    requires h.heads.Keys == h.lists.Keys && AllListsOk(h)
    requires g.heads.Keys == g.lists.Keys == h.lists.Keys + {w}
    requires SameBut(h, g, w)
    requires forall m :: m in h.lists && m != w ==> g.lists[m] == h.lists[m] && g.heads[m] == h.heads[m]
    requires ListOk(g, w)
    ensures AllListsOk(g)
  {
    forall m | m in g.lists ensures ListOk(g, m) {
      if m != w {
        assert ListOk(h, m);
        ChainKept(h, g, h.heads[m], h.lists[m], m);
      }
    }
  }

  /** A node nobody holds goes to the front of a list. */
  ghost function Push<N>(h: Shape<N>, w: Place, n: N, e: Entry): Shape<N> {
    h.(next := h.next[n := HeadOf(ListOf(h, w))], place := h.place[n := w], info := h.info[n := e],
       heads := h.heads[w := Some(n)], lists := h.lists[w := [n] + ListOf(h, w)])
  }

  lemma PushKeys<N>(h: Shape<N>, w: Place, n: N, e: Entry)
    requires h.next.Keys == h.place.Keys == h.info.Keys && h.heads.Keys == h.lists.Keys
    ensures var g := Push(h, w, n, e);
            && g.next.Keys == g.place.Keys == g.info.Keys == h.next.Keys + {n}
            && g.heads.Keys == g.lists.Keys == h.lists.Keys + {w}
  {
  }

  lemma PushElsewhere<N>(h: Shape<N>, w: Place, n: N, e: Entry)
    requires WellShaped(h) && n !in h.next
    ensures forall m :: m in h.place ==> SameAt(h, Push(h, w, n, e), m)
  {
  }

  lemma PushList<N>(h: Shape<N>, w: Place, n: N, e: Entry)
    requires WellShaped(h) && n !in h.next
    ensures ListOk(Push(h, w, n, e), w)
  {
    assert w in h.lists ==> ListOk(h, w);
    PushElsewhere(h, w, n, e);
    ChainPush(h, Push(h, w, n, e), HeadOf(ListOf(h, w)), ListOf(h, w), w, n);
  }

  lemma PushPlaces<N>(h: Shape<N>, w: Place, n: N, e: Entry)
    requires WellShaped(h) && n !in h.next
    ensures AllInPlace(Push(h, w, n, e))
  {
    var g := Push(h, w, n, e);
    forall m | m in g.place ensures InPlace(g, m) {
      if m != n {
        assert InPlace(h, m);
        if h.place[m] == w {
          var j :| 0 <= j < |h.lists[w]| && h.lists[w][j] == m;
          assert g.lists[w][j + 1] == m;
        }
      }
    }
  }

  lemma PushLists<N>(h: Shape<N>, w: Place, n: N, e: Entry)
    requires WellShaped(h) && n !in h.next
    ensures AllListsOk(Push(h, w, n, e))
  {
    PushKeys(h, w, n, e);
    PushElsewhere(h, w, n, e);
    PushList(h, w, n, e);
    ListsElsewhere(h, Push(h, w, n, e), w);
  }

  lemma PushKeeps<N>(h: Shape<N>, w: Place, n: N, e: Entry)
    requires WellShaped(h) && n !in h.next
    ensures WellShaped(Push(h, w, n, e))
  {
    PushKeys(h, w, n, e);
    PushPlaces(h, w, n, e);
    PushLists(h, w, n, e);
  }

  /** The node at position `i` leaves a list; nobody holds it then. */
  ghost function Unlink<N>(h: Shape<N>, w: Place, i: nat): Shape<N>
    requires w in h.lists && i < |h.lists[w]|
  {
    var s, rest := h.lists[w], HeadOf(h.lists[w][i + 1..]);
    h.(next := (if i == 0 then h.next else h.next[s[i - 1] := rest]) - {s[i]},
       place := h.place - {s[i]}, info := h.info - {s[i]},
       heads := if i == 0 then h.heads[w := rest] else h.heads,
       lists := h.lists[w := s[..i] + s[i + 1..]])
  }

  lemma UnlinkNodes<N>(h: Shape<N>, w: Place, i: nat)
    requires WellShaped(h) && w in h.lists && i < |h.lists[w]|
    ensures var s := h.lists[w];
            && s[i] in h.next && h.place[s[i]] == w && h.next[s[i]] == HeadOf(s[i + 1..])
            && (i > 0 ==> s[i - 1] in h.next && h.place[s[i - 1]] == w && s[i - 1] != s[i])
  {
    var s := h.lists[w];
    assert ListOk(h, w);
    assert LinkedAt(h.next, s, i) && PlacedAt(h.place, s, w, i);
    if i > 0 {
      assert LinkedAt(h.next, s, i - 1) && PlacedAt(h.place, s, w, i - 1) && DifferAt(s, i - 1, i);
    }
  }

  lemma UnlinkList<N>(h: Shape<N>, w: Place, i: nat)
    requires WellShaped(h) && w in h.lists && i < |h.lists[w]|
    ensures ListOk(Unlink(h, w, i), w)
  {
    var g, s := Unlink(h, w, i), h.lists[w];
    var before, rest := if i > 0 then Some(s[i - 1]) else None, HeadOf(s[i + 1..]);
    UnlinkNodes(h, w, i);
    assert ListOk(h, w);
    forall n | n in s ensures DroppedAt(h, g, s[i], before, rest, n) {
      PlaceOf(h, h.heads[w], s, w, n);
    }
    ChainDrop(h, g, h.heads[w], s, w, i);
    assert i > 0 ==> HeadOf(s[..i] + s[i + 1..]) == Some(s[0]);
    assert i == 0 ==> s[..i] + s[i + 1..] == s[1..];
  }

  lemma UnlinkPlaces<N>(h: Shape<N>, w: Place, i: nat)
    requires WellShaped(h) && w in h.lists && i < |h.lists[w]|
    ensures AllInPlace(Unlink(h, w, i))
  {
    var g, s := Unlink(h, w, i), h.lists[w];
    forall n | n in g.place ensures InPlace(g, n) {
      assert InPlace(h, n);
      if h.place[n] == w {
        var j :| 0 <= j < |s| && s[j] == n;
        assert g.lists[w][if j < i then j else j - 1] == n;
      }
    }
  }

  lemma UnlinkElsewhere<N>(h: Shape<N>, w: Place, i: nat)
    requires WellShaped(h) && w in h.lists && i < |h.lists[w]|
    ensures SameBut(h, Unlink(h, w, i), w)
  {
    UnlinkNodes(h, w, i);
  }

  lemma UnlinkKeeps<N>(h: Shape<N>, w: Place, i: nat)
    requires WellShaped(h) && w in h.lists && i < |h.lists[w]|
    ensures WellShaped(Unlink(h, w, i))
  {
    UnlinkNodes(h, w, i);
    UnlinkList(h, w, i);
    UnlinkPlaces(h, w, i);
    UnlinkElsewhere(h, w, i);
    ListsElsewhere(h, Unlink(h, w, i), w);
  }

  /** A block of new nodes, linked in order, in front of the free list. */
  ghost function PushBlock<N>(h: Shape<N>, block: seq<N>, e: seq<Entry>): Shape<N>
    requires |e| == |block|
  {
    if block == [] then h else Push(PushBlock(h, block[1..], e[1..]), FREE, block[0], e[0])
  }

  ghost predicate NewAt<N>(h: Shape<N>, block: seq<N>, i: nat)
    requires i < |block|
  {
    block[i] !in h.next
  }

  ghost predicate NewBlock<N>(h: Shape<N>, block: seq<N>) {
    && (forall i :: 0 <= i < |block| ==> NewAt(h, block, i))
    && (forall i, j :: 0 <= i < j < |block| ==> DifferAt(block, i, j))
  }

  lemma NewBlockTail<N>(h: Shape<N>, block: seq<N>)
    requires block != [] && NewBlock(h, block)
    ensures NewBlock(h, block[1..]) && block[0] !in h.next && block[0] !in block[1..]
  {
    var rest := block[1..];
    assert NewAt(h, block, 0);
    forall i | 0 <= i < |rest| ensures NewAt(h, rest, i) && rest[i] != block[0] {
      assert NewAt(h, block, i + 1) && DifferAt(block, 0, i + 1);
    }
    forall i, j | 0 <= i < j < |rest| ensures DifferAt(rest, i, j) {
      assert DifferAt(block, i + 1, j + 1);
    }
  }

  lemma {:induction false} PushBlockKeeps<N>(h: Shape<N>, block: seq<N>, e: seq<Entry>)
    requires WellShaped(h) && |e| == |block| && NewBlock(h, block)
    ensures WellShaped(PushBlock(h, block, e))
    ensures forall n :: n in PushBlock(h, block, e).next <==> n in h.next || n in block
  {
    if block != [] {
      NewBlockTail(h, block);
      PushBlockKeeps(h, block[1..], e[1..]);
      PushKeeps(PushBlock(h, block[1..], e[1..]), FREE, block[0], e[0]);
      assert forall n :: n in block <==> n == block[0] || n in block[1..];
    }
  }

  lemma {:induction false} PushBlockLists<N>(h: Shape<N>, block: seq<N>, e: seq<Entry>)
    requires |e| == |block| && FREE in h.lists && block != []
    ensures PushBlock(h, block, e).lists == h.lists[FREE := block + h.lists[FREE]]
    ensures PushBlock(h, block, e).heads == h.heads[FREE := Some(block[0])]
  {
    if |block| == 1 {
      assert block == [block[0]];
    } else {
      PushBlockLists(h, block[1..], e[1..]);
      assert [block[0]] + (block[1..] + h.lists[FREE]) == block + h.lists[FREE];
    }
  }

  lemma {:induction false} PushBlockOld<N>(h: Shape<N>, block: seq<N>, e: seq<Entry>, n: N)
    requires |e| == |block| && n in h.next && n in h.info && n !in block
    ensures var g := PushBlock(h, block, e); n in g.next && n in g.info && g.next[n] == h.next[n] && g.info[n] == h.info[n]
  {
    if block != [] {
      PushBlockOld(h, block[1..], e[1..], n);
    }
  }

  lemma {:induction false} PushBlockNew<N>(h: Shape<N>, block: seq<N>, e: seq<Entry>, i: nat)
    requires |e| == |block| && NewBlock(h, block) && i < |block|
    ensures var g := PushBlock(h, block, e);
            block[i] in g.next && block[i] in g.info && g.info[block[i]] == e[i]
  {
    NewBlockTail(h, block);
    if i > 0 {
      assert block[i] == block[1..][i - 1];
      PushBlockNew(h, block[1..], e[1..], i - 1);
    }
  }

  // What the lists stand for.

  ghost function Contents<N>(info: map<N, Entry>, s: seq<N>): (c: seq<Entry>)
    ensures |c| == |s|
  {
    seq(|s|, i requires 0 <= i < |s| => if s[i] in info then info[s[i]] else Entry(0, 0))
  }

  ghost function ContentOf<N>(h: Shape<N>, mailbox: string): seq<Entry> {
    Contents(h.info, ListOf(h, Some(mailbox)))
  }

  ghost predicate SameContent<N>(h: Shape<N>, g: Shape<N>, mailbox: string) {
    ContentOf(g, mailbox) == ContentOf(h, mailbox)
  }

  function RemoveAt<T>(c: seq<T>, i: nat): seq<T>
    requires i < |c|
  {
    c[..i] + c[i + 1..]
  }

  lemma ContentsWithout<N>(info: map<N, Entry>, s: seq<N>, x: N)
    requires x !in s
    ensures Contents(info - {x}, s) == Contents(info, s)
  {
  }

  lemma ContentsWith<N>(info: map<N, Entry>, s: seq<N>, x: N, e: Entry)
    requires x !in s
    ensures Contents(info[x := e], s) == Contents(info, s)
    ensures Contents(info[x := e], [x] + s) == [e] + Contents(info, s)
  {
  }

  lemma ContentsRemove<N>(info: map<N, Entry>, s: seq<N>, i: nat)
    requires i < |s| && s[i] !in RemoveAt(s, i)
    ensures Contents(info - {s[i]}, RemoveAt(s, i)) == RemoveAt(Contents(info, s), i)
  {
    ContentsWithout(info, RemoveAt(s, i), s[i]);
  }

  /** A node is in no list but that of its place, and there only once. */
  lemma InNoOtherList<N>(h: Shape<N>, w: Place, x: N)
    requires WellShaped(h) && (x in h.place ==> h.place[x] != w)
    ensures x !in ListOf(h, w)
  {
    if w in h.lists && x in h.lists[w] {
      assert ListOk(h, w);
      PlaceOf(h, h.heads[w], h.lists[w], w, x);
    }
  }

  lemma InListOnce<N>(h: Shape<N>, w: Place, i: nat)
    requires WellShaped(h) && w in h.lists && i < |h.lists[w]|
    ensures h.lists[w][i] !in RemoveAt(h.lists[w], i)
  {
    var s := h.lists[w];
    assert ListOk(h, w);
    forall j | 0 <= j < |s| && j != i ensures s[j] != s[i] {
      assert if j < i then DifferAt(s, j, i) else DifferAt(s, i, j);
    }
  }

  /** A node put in front of a list changes only that list. */
  lemma PushContent<N>(h: Shape<N>, w: Place, n: N, e: Entry, mailbox: string)
    requires WellShaped(h) && n !in h.next
    ensures if w == Some(mailbox) then ContentOf(Push(h, w, n, e), mailbox) == [e] + ContentOf(h, mailbox)
            else SameContent(h, Push(h, w, n, e), mailbox)
  {
    InNoOtherList(h, Some(mailbox), n);
    ContentsWith(h.info, ListOf(h, Some(mailbox)), n, e);
  }

  /** A node that leaves a list changes only that list. */
  lemma UnlinkContent<N>(h: Shape<N>, from: Place, i: nat, mailbox: string)
    requires WellShaped(h) && from in h.lists && i < |h.lists[from]|
    ensures if from == Some(mailbox) then ContentOf(Unlink(h, from, i), mailbox) == RemoveAt(ContentOf(h, mailbox), i)
            else SameContent(h, Unlink(h, from, i), mailbox)
  {
    if from == Some(mailbox) {
      InListOnce(h, from, i);
      ContentsRemove(h.info, h.lists[from], i);
    } else {
      UnlinkNodes(h, from, i);
      InNoOtherList(h, Some(mailbox), h.lists[from][i]);
      ContentsWithout(h.info, ListOf(h, Some(mailbox)), h.lists[from][i]);
    }
  }

  /** A block of new nodes changes no mailbox, and adds as many nodes as it has. */
  lemma {:induction false} BlockContent<N>(h: Shape<N>, block: seq<N>, e: seq<Entry>, mailbox: string)
    requires WellShaped(h) && |e| == |block| && NewBlock(h, block)
    ensures SameContent(h, PushBlock(h, block, e), mailbox)
    ensures |PushBlock(h, block, e).next| == |h.next| + |block|
  {
    if block != [] {
      NewBlockTail(h, block);
      BlockContent(h, block[1..], e[1..], mailbox);
      PushBlockKeeps(h, block[1..], e[1..]);
      var g := PushBlock(h, block[1..], e[1..]);
      PushContent(g, FREE, block[0], e[0], mailbox);
      OneMoreKey(g.next, block[0], HeadOf(ListOf(g, FREE)));
    }
  }

  lemma OneMoreKey<N>(m: map<N, Option<N>>, k: N, v: Option<N>)
    requires k !in m
    ensures |m[k := v]| == |m| + 1
  {
    assert m[k := v].Keys == m.Keys + {k};
  }

  /** No mailbox changes. */
  ghost predicate SameContents<N>(h: Shape<N>, g: Shape<N>) {
    forall mailbox: string :: SameContent(h, g, mailbox)
  }

  lemma PopContents<N>(h: Shape<N>)
    requires WellShaped(h) && h.lists[FREE] != []
    ensures SameContents(h, Unlink(h, FREE, 0))
  {
    forall k: string ensures SameContent(h, Unlink(h, FREE, 0), k) {
      UnlinkContent(h, FREE, 0, k);
    }
  }

  lemma FreeHead<N>(h: Shape<N>)
    requires WellShaped(h)
    ensures h.heads[FREE] == HeadOf(h.lists[FREE])
  {
    assert ListOk(h, FREE);
  }

  lemma OneKeyLess<N>(m: map<N, Option<N>>, k: N)
    requires k in m
    ensures |m| == |m - {k}| + 1
  {
    assert (m - {k}).Keys + {k} == m.Keys;
  }

  /** What taking the first free node does to the links. */
  lemma PopFree<N>(h: Shape<N>)
    requires FREE in h.lists && h.lists[FREE] != []
    requires var s := h.lists[FREE]; s[0] in h.next && h.next[s[0]] == HeadOf(s[1..])
    ensures var t, g := h.lists[FREE][0], Unlink(h, FREE, 0);
            && g.heads == h.heads[FREE := h.next[t]] && g.next == h.next - {t} && g.info == h.info - {t}
            && |h.next| == |g.next| + 1 && FreeCount(h) == FreeCount(g) + 1
  {
    OneKeyLess(h.next, h.lists[FREE][0]);
  }

  lemma BlockContents<N>(h: Shape<N>, block: seq<N>, e: seq<Entry>)
    requires WellShaped(h) && |e| == |block| && NewBlock(h, block)
    ensures SameContents(h, PushBlock(h, block, e)) && |PushBlock(h, block, e).next| == |h.next| + |block|
  {
    forall k: string ensures SameContent(h, PushBlock(h, block, e), k) {
      BlockContent(h, block, e, k);
    }
    BlockContent(h, block, e, "");
  }

  /** What a block of new nodes does when no node is free. */
  lemma FillFree<N>(h: Shape<N>, block: seq<N>, e: seq<Entry>)
    requires WellShaped(h) && h.heads[FREE].None? && block != [] && |e| == |block| && NewBlock(h, block)
    requires WellShaped(PushBlock(h, block, e))
    ensures FreeCount(h) == 0 && FreeCount(PushBlock(h, block, e)) == |block|
    ensures var g := PushBlock(h, block, e);
            && g.heads == h.heads[FREE := Some(block[0])]
            && (forall i :: 0 <= i < |block| ==> BlockAt(g, block, e, i))
  {
    var g := PushBlock(h, block, e);
    FreeHead(h);
    assert block + [] == block;
    PushBlockLists(h, block, e);
    assert ListOk(g, FREE);
    forall i | 0 <= i < |block| ensures BlockAt(g, block, e, i) {
      PushBlockNew(h, block, e, i);
      assert LinkedAt(g.next, block, i);
    }
  }

  lemma FillKeeps<N>(h: Shape<N>, block: seq<N>, e: seq<Entry>)
    requires |e| == |block| && NewBlock(h, block) && h.info.Keys == h.next.Keys
    ensures forall n :: n in h.next ==> SameNode(h, PushBlock(h, block, e), n)
  {
    forall n | n in h.next ensures SameNode(h, PushBlock(h, block, e), n) {
      forall i | 0 <= i < |block| ensures block[i] != n {
        assert NewAt(h, block, i);
      }
      PushBlockOld(h, block, e, n);
    }
  }

  ghost predicate BlockAt<N>(g: Shape<N>, block: seq<N>, e: seq<Entry>, i: nat)
    requires i < |block| == |e|
  {
    && block[i] in g.next && g.next[block[i]] == HeadOf(block[i + 1..])
    && block[i] in g.info && g.info[block[i]] == e[i]
  }

  ghost predicate SameNode<N>(h: Shape<N>, g: Shape<N>, n: N) {
    n in h.next && n in g.next && g.next[n] == h.next[n] && n in h.info && n in g.info && g.info[n] == h.info[n]
  }

  lemma MoreNew<N>(h: Shape<N>, block: seq<N>, n: N)
    requires NewBlock(h, block) && n !in block && n !in h.next
    ensures NewBlock(h, block + [n])
  {
    var b := block + [n];
    forall i | 0 <= i < |b| ensures NewAt(h, b, i) {
      assert i < |block| ==> NewAt(h, block, i);
    }
    forall i, j | 0 <= i < j < |b| ensures DifferAt(b, i, j) {
      assert j < |block| ==> DifferAt(block, i, j);
    }
  }

  /** No mailbox but `mboxname` changes. */
  ghost predicate ChangedOnly<N>(h: Shape<N>, g: Shape<N>, mboxname: string) {
    forall mailbox: string :: mailbox != mboxname ==> SameContent(h, g, mailbox)
  }

  lemma PushContents<N>(h: Shape<N>, g: Shape<N>, mboxname: string, n: N, e: Entry)
    requires SameContents(h, g) && WellShaped(g) && n !in g.next
    ensures var r := Push(g, Some(mboxname), n, e);
            ContentOf(r, mboxname) == [e] + ContentOf(h, mboxname) && ChangedOnly(h, r, mboxname) && FreeCount(r) == FreeCount(g)
  {
    var r := Push(g, Some(mboxname), n, e);
    PushContent(g, Some(mboxname), n, e, mboxname);
    assert SameContent(h, g, mboxname);
    forall k: string | k != mboxname ensures SameContent(h, r, k) {
      assert SameContent(h, g, k);
      PushContent(g, Some(mboxname), n, e, k);
    }
  }

  /** The node at position `i` of a mailbox's list goes to the free list; past its end nothing happens. */
  ghost function Dropped<N>(h: Shape<N>, mboxname: string, i: nat): Shape<N>
    requires i < |ListOf(h, Some(mboxname))| ==> ListOf(h, Some(mboxname))[i] in h.info
  {
    var s := ListOf(h, Some(mboxname));
    if i < |s| then Push(Unlink(h, Some(mboxname), i), FREE, s[i], h.info[s[i]]) else h
  }

  lemma UnlinkGone<N>(h: Shape<N>, w: Place, i: nat)
    requires WellShaped(h) && w in h.lists && i < |h.lists[w]|
    ensures h.lists[w][i] in h.info && h.lists[w][i] !in Unlink(h, w, i).next
    ensures Unlink(h, w, i).next.Keys == h.next.Keys - {h.lists[w][i]}
  {
    UnlinkNodes(h, w, i);
  }

  lemma DroppedContents<N>(h: Shape<N>, mboxname: string, i: nat)
    requires WellShaped(h) && i < |ListOf(h, Some(mboxname))|
    ensures ListOf(h, Some(mboxname))[i] in h.info
    ensures var g := Dropped(h, mboxname, i);
            && g.next.Keys == h.next.Keys
            && ListOf(g, Some(mboxname)) == RemoveAt(ListOf(h, Some(mboxname)), i)
            && ContentOf(g, mboxname) == RemoveAt(ContentOf(h, mboxname), i)
            && ChangedOnly(h, g, mboxname) && FreeCount(g) == FreeCount(h) + 1
  {
    var w := Some(mboxname);
    UnlinkGone(h, w, i);
    UnlinkKeeps(h, w, i);
    var u, n := Unlink(h, w, i), h.lists[w][i];
    var g := Push(u, FREE, n, h.info[n]);
    UnlinkContent(h, w, i, mboxname);
    PushContent(u, FREE, n, h.info[n], mboxname);
    forall k: string | k != mboxname ensures SameContent(h, g, k) {
      UnlinkContent(h, w, i, k);
      PushContent(u, FREE, n, h.info[n], k);
    }
    assert g.next.Keys == u.next.Keys + {n};
  }
}
