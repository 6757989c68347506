/**
 The mailbox list of one server, the MUPDATE registry, and the recovery procedure
 "ctl_mboxlist -m" that brings the two back into agreement.
 */
module Resync {
  import opened Wrappers
  import opened KeyOrder
  import opened Merge
  import opened AccessLists

  /** A mailbox-list record together with the data it points at. */
  datatype Box = Box(messages: seq<string>, acl: Acl, part: string, moving: bool)

  /** MUPDATE's "host!partition". */
  datatype Location = Location(host: string, part: string)

  datatype Entry = Reserved(loc: Location) | Active(loc: Location, acl: Acl)

  /** What follows the first '!' of a partition, if there is one. */
  function AfterBang(part: string): Option<string> {
    if part == "" then None
    else if part[0] == '!' then Some(part[1..])
    else AfterBang(part[1..])
  }

  /** A moving mailbox records its partition as "server!partition"; the flag is cleared by stripping it. */
  function StripServer(part: string): string {
    match AfterBang(part)
    case None => part
    case Some(rest) => rest
  }

  lemma {:induction false} StripServerUndoesPrefix(server: string, part: string)
    requires '!' !in server
    ensures StripServer(server + "!" + part) == part
  {
    if server == "" {
      assert (server + "!" + part)[1..] == part;
    } else {
      StripServerUndoesPrefix(server[1..], part);
      assert (server + "!" + part)[1..] == server[1..] + "!" + part;
    }
  }

  lemma {:induction false} NothingAfterBang(part: string)
    requires '!' !in part
    ensures AfterBang(part) == None
  {
    if part != "" {
      assert part[0] in part && forall c :: c in part[1..] ==> c in part;
      NothingAfterBang(part[1..]);
    }
  }

  /** A partition without a server in front of it stays as it is. */
  lemma StripServerKeepsPlain(part: string)
    requires '!' !in part
    ensures StripServer(part) == part
  {
    NothingAfterBang(part);
  }

  /** The record of a mailbox whose MOVING flag has been cleared. */
  function Unflagged(box: Box): Box {
    box.(moving := false, part := StripServer(box.part))
  }

  /** What the resync decides about one local mailbox. */
  datatype Verdict = Skip | Push | Unflag | Wipe

  /** The verdict on a local mailbox, given whether the merge recognised it as ours. */
  function VerdictOn(host: string, authoritative: bool, box: Box, entry: Option<Entry>, matched: bool): Verdict {
    if matched then
      if box.moving then Unflag
      else if entry == Some(Active(Location(host, box.part), box.acl)) then Skip
      else Push
    else if !authoritative && entry.Some? then Wipe
    else if box.moving then Unflag
    else Push
  }

  /** Each verdict, in terms of what is compared: a mailbox is only left alone if MUPDATE has its partition and ACL too. */
  lemma VerdictMeans(host: string, authoritative: bool, box: Box, entry: Option<Entry>, matched: bool)
    ensures var v, ours := VerdictOn(host, authoritative, box, entry, matched), matched || authoritative || entry.None?;
            && (v == Wipe <==> !ours)
            && (v == Unflag <==> ours && box.moving)
            && (v == Skip <==> matched && !box.moving && entry.Some? && entry.value.Active? && entry.value.loc.host == host
                               && entry.value.loc.part == box.part && entry.value.acl == box.acl)
  {
  }

  predicate PlacedOn(host: string, entry: Option<Entry>) {
    entry.Some? && entry.value.loc.host == host
  }

  ghost function HostedNames(host: string, entries: map<string, Entry>): set<string> {
    set n | n in entries && entries[n].loc.host == host
  }

  /** The local record and the registry entry of one name after a resync of `host`. */
  function LocalAfter(host: string, authoritative: bool, box: Option<Box>, entry: Option<Entry>, matched: bool)
    : Option<Box>
  {
    match box
    case None => None
    case Some(b) =>
      match VerdictOn(host, authoritative, b, entry, matched)
      case Skip => box
      case Push => box
      case Unflag => Some(Unflagged(b))
      case Wipe => None
  }

  function EntryAfter(host: string, authoritative: bool, box: Option<Box>, entry: Option<Entry>, matched: bool)
    : Option<Entry>
  {
    match box
    case None => if PlacedOn(host, entry) then None else entry
    case Some(b) =>
      var v := VerdictOn(host, authoritative, b, entry, matched);
      if v == Skip || v == Wipe then entry
      else Some(Active(Location(host, b.part), b.acl))
  }

  class Registry {
    var entries: map<string, Entry>

    constructor ()
      ensures entries == map[]
    {
      entries := map[];
    }

    method Activate(name: string, loc: Location, acl: Acl)
      modifies this
      ensures entries == old(entries)[name := Active(loc, acl)]
    {
      entries := entries[name := Active(loc, acl)];
    }

    method Deactivate(name: string, loc: Location)
      modifies this
      ensures entries == old(entries)[name := Reserved(loc)]
    {
      entries := entries[name := Reserved(loc)];
    }

    method Delete(name: string)
      modifies this
      ensures entries == old(entries) - {name}
    {
      entries := entries - {name};
    }
  }

  datatype ActNode = ActNode(mailbox: string, entry: Entry)

  function Names(queue: seq<ActNode>): (s: seq<string>)
    ensures |s| == |queue|
    ensures forall i :: 0 <= i < |s| ==> s[i] == queue[i].mailbox
  {
    seq(|queue|, i requires 0 <= i < |queue| => queue[i].mailbox)
  }

  /** Everything the database walk changes: MUPDATE's entries and the three queues. */
  datatype Work = Work(queue: seq<ActNode>, wipe: seq<string>, unflag: seq<string>, entries: map<string, Entry>)

  /** How a resync is run: on which host, and with which of the command's switches. */
  datatype Mode = Mode(host: string, authoritative: bool, warnOnly: bool)

  predicate AtHead(queue: seq<ActNode>, name: string) {
    queue != [] && queue[0].mailbox == name
  }

  /** The work state after the callback for the mailbox `name` with record `box`. */
  function Dumped(w: Work, mode: Mode, name: string, box: Box): Work {
    var matched := AtHead(w.queue, name);
    var entry := if matched then Some(w.queue[0].entry) else Lookup(w.entries, name);
    var v := VerdictOn(mode.host, mode.authoritative, box, entry, matched);
    Work(if matched then w.queue[1..] else w.queue,
         if v == Wipe && !mode.warnOnly then [name] + w.wipe else w.wipe,
         if v == Unflag && !mode.warnOnly then [name] + w.unflag else w.unflag,
         if v == Push && !mode.warnOnly then w.entries[name := Active(Location(mode.host, box.part), box.acl)]
         else w.entries)
  }

  /** The queued copies of the entries the walk has yet to meet are up to date. */
  ghost predicate QueueAgrees(w: Work, order: seq<string>) {
    forall a :: a in w.queue && a.mailbox in order ==> Lookup(w.entries, a.mailbox) == Some(a.entry)
  }

  /** The whole walk. */
  ghost function DumpedAll(w: Work, mode: Mode, order: seq<string>, boxes: map<string, Box>): Work
    requires forall n :: n in order ==> n in boxes
    decreases |order|
  {
    if order == [] then w
    else
      assert order[0] in order;
      DumpedAll(Dumped(w, mode, order[0], boxes[order[0]]), mode, order[1..], boxes)
  }

  lemma DumpedNext(w: Work, mode: Mode, order: seq<string>, i: nat, boxes: map<string, Box>)
    requires i < |order| && forall n :: n in order ==> n in boxes
    ensures DumpedAll(w, mode, order[i..], boxes) ==
            DumpedAll(Dumped(w, mode, order[i], boxes[order[i]]), mode, order[i + 1..], boxes)
  {
    assert order[i..][1..] == order[i + 1..];
  }

  /**
   What the walk amounts to, name by name: whatever the queue and the order, a name is judged once,
   by its original record and entry and by whether the merge recognised it.
   */
  lemma {:induction false} WalkMeaning(w: Work, mode: Mode, order: seq<string>, boxes: map<string, Box>, n: string)
    requires forall k :: k in order ==> k in boxes
    requires Distinct(order)
    requires n in order ==> n !in w.wipe && n !in w.unflag
    requires QueueAgrees(w, order)
    ensures Judged(w, DumpedAll(w, mode, order, boxes), mode, order, boxes, Matched(Names(w.queue), order), n)
    decreases |order|
  {
    if order != [] {
      var name, rest := order[0], order[1..];
      assert order == [name] + rest && name !in rest;
      var w1 := Dumped(w, mode, name, boxes[name]);
      var later := Matched(Names(w1.queue), rest);
      assert QueueAgrees(w1, rest);
      WalkMeaning(w1, mode, rest, boxes, n);
      assert Matched(Names(w.queue), order) == if AtHead(w.queue, name) then {name} + later else later by {
        assert w.queue != [] ==> Names(w.queue)[1..] == Names(w.queue[1..]);
      }
      JudgedOneEarlier(w, w1, DumpedAll(w1, mode, rest, boxes), mode, name, rest, boxes, later, n);
    }
  }

  /** A name is queued at most once, so no work item is repeated. */
  lemma {:induction false} WalkQueuesOnce(w: Work, mode: Mode, order: seq<string>, boxes: map<string, Box>)
    requires forall k :: k in order ==> k in boxes
    requires Distinct(order)
    requires Distinct(w.wipe) && Distinct(w.unflag)
    requires forall k :: k in order ==> k !in w.wipe && k !in w.unflag
    ensures Distinct(DumpedAll(w, mode, order, boxes).wipe) && Distinct(DumpedAll(w, mode, order, boxes).unflag)
    decreases |order|
  {
    if order != [] {
      var w1 := Dumped(w, mode, order[0], boxes[order[0]]);
      assert order == [order[0]] + order[1..];
      WalkQueuesOnce(w1, mode, order[1..], boxes);
    }
  }

  lemma JudgedOneEarlier(w: Work, w1: Work, w': Work, mode: Mode, name: string, rest: seq<string>,
                         boxes: map<string, Box>, later: set<string>, n: string)
    requires name in boxes && name !in rest && name !in later
    requires n in [name] + rest ==> n !in w.wipe && n !in w.unflag
    requires AtHead(w.queue, name) ==> Lookup(w.entries, name) == Some(w.queue[0].entry)
    requires w1 == Dumped(w, mode, name, boxes[name])
    requires Judged(w1, w', mode, rest, boxes, later, n)
    ensures Judged(w, w', mode, [name] + rest, boxes, if AtHead(w.queue, name) then {name} + later else later, n)
  {
    assert n in [name] + rest <==> n == name || n in rest;
  }

  /** The name `n` went from `w` to `w'` with the verdict its record, entry and recognition call for. */
  ghost predicate Judged(w: Work, w': Work, mode: Mode, order: seq<string>, boxes: map<string, Box>,
                         matched: set<string>, n: string)
  {
    if n in order && n in boxes && !mode.warnOnly then
      var v := VerdictOn(mode.host, mode.authoritative, boxes[n], Lookup(w.entries, n), n in matched);
      && (n in w'.wipe <==> v == Wipe)
      && (n in w'.unflag <==> v == Unflag)
      && Lookup(w'.entries, n) ==
         (if v == Push then Some(Active(Location(mode.host, boxes[n].part), boxes[n].acl)) else Lookup(w.entries, n))
    else
      && (n in w'.wipe <==> n in w.wipe)
      && (n in w'.unflag <==> n in w.unflag)
      && Lookup(w'.entries, n) == Lookup(w.entries, n)
  }

  lemma WalkJudges(w: Work, mode: Mode, order: seq<string>, boxes: map<string, Box>)
    requires forall k :: k in order ==> k in boxes
    requires Distinct(order) && w.wipe == w.unflag == [] && QueueAgrees(w, order)
    ensures forall n :: Judged(w, DumpedAll(w, mode, order, boxes), mode, order, boxes, Matched(Names(w.queue), order), n)
  {
    forall n ensures Judged(w, DumpedAll(w, mode, order, boxes), mode, order, boxes, Matched(Names(w.queue), order), n) {
      WalkMeaning(w, mode, order, boxes, n);
    }
  }

  lemma UnflaggedAreLocal(w: Work, w': Work, mode: Mode, order: seq<string>, boxes: map<string, Box>,
                          matched: set<string>)
    requires forall n :: Judged(w, w', mode, order, boxes, matched, n)
    requires forall n :: n in order <==> n in boxes
    requires w.unflag == []
    ensures forall n :: n in w'.unflag ==> n in boxes
  {
    forall n | n in w'.unflag ensures n in boxes {
      assert Judged(w, w', mode, order, boxes, matched, n);
    }
  }

  /** One name before and after a resync of `mode.host`. */
  ghost predicate Resynced(mode: Mode, box: Option<Box>, entry: Option<Entry>, matched: bool,
                           box': Option<Box>, entry': Option<Entry>)
  {
    if mode.warnOnly then box' == box && entry' == entry
    else
      && box' == LocalAfter(mode.host, mode.authoritative, box, entry, matched)
      && entry' == EntryAfter(mode.host, mode.authoritative, box, entry, matched)
  }

  /**
   What a resync that changes anything makes of one name: a mailbox that is ours is unflagged and active in MUPDATE
   with its partition and ACL, whatever was there; one that is not ours goes; and MUPDATE forgets what we do not have.
   */
  lemma ResyncedMeans(mode: Mode, box: Option<Box>, entry: Option<Entry>, matched: bool, box': Option<Box>, entry': Option<Entry>)
    requires Resynced(mode, box, entry, matched, box', entry') && !mode.warnOnly
    ensures box.None? ==>
              box' == None && entry' == if entry.Some? && entry.value.loc.host == mode.host then None else entry
    ensures box.Some? && (matched || mode.authoritative || entry.None?) ==>
              && entry' == Some(Active(Location(mode.host, box.value.part), box.value.acl))
              && box' == Some(if box.value.moving then box.value.(moving := false, part := StripServer(box.value.part)) else box.value)
    ensures box.Some? && !matched && !mode.authoritative && entry.Some? ==> box' == None && entry' == entry
  {
  }

  /** The four phases of do_dump, followed for one name. */
  lemma Settles(w: Work, w': Work, mode: Mode, order: seq<string>, boxes: map<string, Box>, entries: map<string, Entry>,
                matched: set<string>, boxes1: map<string, Box>, boxes': map<string, Box>, entries': map<string, Entry>,
                n: string)
    requires n in order <==> n in boxes
    requires w.wipe == w.unflag == []
    requires Lookup(w.entries, n) ==
             if PlacedOn(mode.host, Lookup(entries, n)) && n !in boxes && !mode.warnOnly then None else Lookup(entries, n)
    requires Judged(w, w', mode, order, boxes, matched, n)
    requires n in w'.unflag ==> n in boxes
    requires Lookup(boxes1, n) == if n in w'.unflag then Some(Unflagged(boxes[n])) else Lookup(boxes, n)
    requires Lookup(entries', n) == if n in w'.unflag then Some(Active(Location(mode.host, boxes[n].part), boxes[n].acl))
                                    else Lookup(w'.entries, n)
    requires Lookup(boxes', n) == if n in w'.wipe then None else Lookup(boxes1, n)
    ensures Resynced(mode, Lookup(boxes, n), Lookup(entries, n), n in matched, Lookup(boxes', n), Lookup(entries', n))
  {
  }

  class Server {
    const host: string
    const defaultPart: string
    var mailboxes: map<string, Box>
    // The work queues of ctl_mboxlist.  The first is filled at its tail, the others at their head.
    var actQueue: seq<ActNode>
    var delStack: seq<string>
    var wipeStack: seq<string>
    var unflagStack: seq<string>

    constructor (host: string, defaultPart: string)
      ensures this.host == host && this.defaultPart == defaultPart
      ensures mailboxes == map[] && Idle()
    {
      this.host, this.defaultPart := host, defaultPart;
      mailboxes := map[];
      actQueue, delStack, wipeStack, unflagStack := [], [], [], [];
    }

    /** No work is queued. */
    predicate Idle()
      reads this
    {
      actQueue == [] && delStack == [] && wipeStack == [] && unflagStack == []
    }

    /** mupdate_list_cb: MUPDATE says we host `name`; do we? */
    method ListCallback(name: string, entry: Entry)
      modifies this`actQueue, this`delStack
      ensures name in mailboxes ==> actQueue == old(actQueue) + [ActNode(name, entry)] && delStack == old(delStack)
      ensures name !in mailboxes ==> actQueue == old(actQueue) && delStack == [name] + old(delStack)
    {
      if name !in mailboxes {
        delStack := [name] + delStack;
      } else {
        actQueue := actQueue + [ActNode(name, entry)];
      }
    }

    ghost function WorkState(registry: Registry): Work
      reads this, registry
    {
      Work(actQueue, wipeStack, unflagStack, registry.entries)
    }

    /** The M_POPULATE branch of dump_cb, for one local mailbox. */
    method DumpCallback(registry: Registry, authoritative: bool, warnOnly: bool, name: string)
      requires name in mailboxes
      modifies this`actQueue, this`wipeStack, this`unflagStack, registry
      ensures WorkState(registry) ==
              Dumped(old(WorkState(registry)), Mode(host, authoritative, warnOnly), name, mailboxes[name])
    {
      var box := mailboxes[name];
      var realpart := Location(host, box.part);
      var skip: bool;
      if actQueue != [] && name == actQueue[0].mailbox {
        var node := actQueue[0];
        if box.moving {
          if !warnOnly {
            unflagStack := [name] + unflagStack;
          }
          skip := true;
        } else if node.entry.Active? && realpart == node.entry.loc && box.acl == node.entry.acl {
          skip := true;
        } else {
          skip := false;
        }
        actQueue := actQueue[1..];
      } else if !authoritative && name in registry.entries {
        if !warnOnly {
          wipeStack := [name] + wipeStack;
        }
        skip := true;
      } else if box.moving {
        if !warnOnly {
          unflagStack := [name] + unflagStack;
        }
        skip := true;
      } else {
        skip := false;
      }
      if skip || warnOnly {
        return;
      }
      registry.Activate(name, realpart, box.acl);
    }

    /** The names on this host that MUPDATE lists and we have: the activate queue. */
    ghost function QueueFor(listing: seq<string>): seq<string>
      reads this`mailboxes
    {
      Restrict(listing, mailboxes.Keys)
    }

    /** The first loop of do_dump: collect MUPDATE's listing. */
    method CollectListing(registry: Registry, listing: seq<string>)
      requires Idle()
      requires forall n :: n in listing ==> n in registry.entries
      modifies this`actQueue, this`delStack
      ensures Names(actQueue) == QueueFor(listing)
      ensures forall a :: a in actQueue ==> Lookup(registry.entries, a.mailbox) == Some(a.entry)
      ensures forall n :: n in delStack <==> n in listing && n !in mailboxes
    {
      var i := 0;
      while i < |listing|
        invariant 0 <= i <= |listing|
        invariant Names(actQueue) + QueueFor(listing[i..]) == QueueFor(listing)
        invariant forall a :: a in actQueue ==> Lookup(registry.entries, a.mailbox) == Some(a.entry)
        invariant forall n :: n in delStack <==> n in listing[..i] && n !in mailboxes
      {
        var name := listing[i];
        assert listing[i..] == [name] + listing[i + 1..];
        assert listing[..i + 1] == listing[..i] + [name];
        ListCallback(name, registry.entries[name]);
        i := i + 1;
      }
      assert listing[i..] == [] && listing[..i] == listing;
    }

    /** The second loop of do_dump: drop the entries MUPDATE wrongly keeps for us. */
    method DrainDeletes(registry: Registry, warnOnly: bool)
      modifies this`delStack, registry
      ensures delStack == []
      ensures forall n :: Lookup(registry.entries, n) ==
                          if n in old(delStack) && !warnOnly then None else old(Lookup(registry.entries, n))
    {
      while delStack != []
        invariant forall n :: n in delStack ==> n in old(delStack)
        invariant forall n :: n in old(delStack) && n !in delStack && !warnOnly ==> n !in registry.entries
        invariant forall n :: Lookup(registry.entries, n) == old(Lookup(registry.entries, n)) ||
                              (n in old(delStack) && !warnOnly && n !in registry.entries)
        decreases |delStack|
      {
        var name := delStack[0];
        assert delStack == [name] + delStack[1..];
        delStack := delStack[1..];
        if !warnOnly {
          registry.Delete(name);
        }
      }
    }

    /** The database walk of do_dump: every local mailbox goes through DumpCallback. */
    method Dump(registry: Registry, authoritative: bool, warnOnly: bool, order: seq<string>)
      requires Enumerates(order, mailboxes.Keys)
      modifies this`actQueue, this`wipeStack, this`unflagStack, registry
      ensures WorkState(registry) ==
              DumpedAll(old(WorkState(registry)), Mode(host, authoritative, warnOnly), order, mailboxes)
    {
      ghost var mode, boxes := Mode(host, authoritative, warnOnly), mailboxes;
      ghost var w, all := WorkState(registry), DumpedAll(WorkState(registry), mode, order, mailboxes);
      var i := 0;
      assert order[0..] == order;
      while i < |order|
        invariant 0 <= i <= |order|
        invariant w == WorkState(registry) && DumpedAll(w, mode, order[i..], boxes) == all
      {
        DumpedNext(w, mode, order, i, boxes);
        w := Dumped(w, mode, order[i], boxes[order[i]]);
        DumpCallback(registry, authoritative, warnOnly, order[i]);
        i := i + 1;
      }
    }

    /** Clear the MOVING flag of the queued mailboxes and force their entries. */
    method DrainUnflags(registry: Registry)
      requires forall n :: n in unflagStack ==> n in mailboxes
      requires Distinct(unflagStack)
      modifies this`unflagStack, this`mailboxes, registry
      ensures unflagStack == []
      ensures forall n :: Lookup(mailboxes, n) ==
                          if n in old(unflagStack) then Some(Unflagged(old(mailboxes)[n])) else old(Lookup(mailboxes, n))
      ensures forall n :: Lookup(registry.entries, n) ==
                          if n in old(unflagStack)
                          then Some(Active(Location(host, old(mailboxes)[n].part), old(mailboxes)[n].acl))
                          else old(Lookup(registry.entries, n))
    {
      while unflagStack != []
        invariant Distinct(unflagStack)
        invariant forall n :: n in unflagStack ==> n in old(unflagStack)
        invariant forall n :: Lookup(mailboxes, n) ==
                              if n in old(unflagStack) && n !in unflagStack then Some(Unflagged(old(mailboxes)[n]))
                              else old(Lookup(mailboxes, n))
        invariant forall n :: Lookup(registry.entries, n) ==
                              if n in old(unflagStack) && n !in unflagStack
                              then Some(Active(Location(host, old(mailboxes)[n].part), old(mailboxes)[n].acl))
                              else old(Lookup(registry.entries, n))
        decreases |unflagStack|
      {
        var name := unflagStack[0];
        assert unflagStack == [name] + unflagStack[1..];
        unflagStack := unflagStack[1..];
        assert Lookup(mailboxes, name) == old(Lookup(mailboxes, name));
        var box := mailboxes[name];
        mailboxes := mailboxes[name := box.(moving := false, part := StripServer(box.part))];
        registry.Activate(name, Location(host, box.part), box.acl);
      }
    }

    /** Delete the queued mailboxes and their data from this server. */
    method DrainWipes()
      modifies this`wipeStack, this`mailboxes
      ensures wipeStack == []
      ensures mailboxes == old(mailboxes) - (set n | n in old(wipeStack))
    {
      ghost var wiped: set<string> := {};
      while wipeStack != []
        invariant forall n :: n in old(wipeStack) <==> n in wipeStack || n in wiped
        invariant mailboxes == old(mailboxes) - wiped
        decreases |wipeStack|
      {
        var name := wipeStack[0];
        assert wipeStack == [name] + wipeStack[1..];
        wipeStack := wipeStack[1..];
        mailboxes := mailboxes - {name};
        wiped := wiped + {name};
      }
      assert wiped == set n | n in old(wipeStack);
    }

    /**
     do_dump with M_POPULATE, for any order in which MUPDATE lists and the database enumerates.
     Every name ends up as its own record and entry dictate, given the names the merge recognised.
     */
    method Populate(registry: Registry, authoritative: bool, warnOnly: bool, listing: seq<string>, order: seq<string>)
      requires Idle()
      requires Enumerates(listing, HostedNames(host, registry.entries))
      requires Enumerates(order, mailboxes.Keys)
      modifies this, registry
      ensures delStack == wipeStack == unflagStack == []
      ensures forall n ::
                Resynced(Mode(host, authoritative, warnOnly), old(Lookup(mailboxes, n)), old(Lookup(registry.entries, n)),
                         n in Matched(old(QueueFor(listing)), order), Lookup(mailboxes, n), Lookup(registry.entries, n))
    {
      ghost var mode := Mode(host, authoritative, warnOnly);
      ghost var queue, boxes, entries := QueueFor(listing), mailboxes, registry.entries;
      RestrictKeepsDistinct(listing, mailboxes.Keys);
      CollectListing(registry, listing);
      DrainDeletes(registry, warnOnly);
      ghost var w := WorkState(registry);
      Dump(registry, authoritative, warnOnly, order);
      ghost var w' := WorkState(registry);
      WalkQueuesOnce(w, mode, order, boxes);
      ghost var matched := Matched(queue, order);
      WalkJudges(w, mode, order, boxes);
      UnflaggedAreLocal(w, w', mode, order, boxes, matched);
      DrainUnflags(registry);
      ghost var boxes1 := mailboxes;
      DrainWipes();
      ghost var boxes', entries' := mailboxes, registry.entries;
      forall n ensures Resynced(mode, Lookup(boxes, n), Lookup(entries, n), n in matched, Lookup(boxes', n), Lookup(entries', n)) {
        assert Judged(w, w', mode, order, boxes, matched, n);
        Settles(w, w', mode, order, boxes, entries, matched, boxes1, boxes', entries', n);
      }
    }

    /**
     The recovery command, with both sides enumerated in key order: then a name counts as
     recognised exactly when MUPDATE places it on this host.
     */
    method DoDump(registry: Registry, authoritative: bool, warnOnly: bool)
      requires Idle()
      modifies this, registry
      ensures forall n ::
                Resynced(Mode(host, authoritative, warnOnly), old(Lookup(mailboxes, n)), old(Lookup(registry.entries, n)),
                         PlacedOn(host, old(Lookup(registry.entries, n))), Lookup(mailboxes, n), Lookup(registry.entries, n))
      ensures forall n :: Plainly(Mode(host, authoritative, warnOnly), old(mailboxes), old(registry.entries),
                                  mailboxes, registry.entries, n)
    {
      ghost var boxes, entries, mode := mailboxes, registry.entries, Mode(host, authoritative, warnOnly);
      var listing := Scan(set n | n in registry.entries && registry.entries[n].loc.host == host);
      var order := Scan(mailboxes.Keys);
      KeyOrderRecognisesHosted(host, mailboxes, registry.entries, listing, order);
      Populate(registry, authoritative, warnOnly, listing, order);
      forall n ensures Plainly(mode, boxes, entries, mailboxes, registry.entries, n) {
        PlainlyResynced(mode, boxes, entries, mailboxes, registry.entries, n);
      }
    }
  }

  /**
   What becomes of one name, entry by entry: what MUPDATE places here or nowhere is afterwards in MUPDATE as it is here,
   with its partition and ACL, and is kept; what it places elsewhere is wiped, unless the local copies are
   authoritative; and MUPDATE forgets what it places here and we do not have.
   */
  ghost predicate Plainly(mode: Mode, boxes: map<string, Box>, entries: map<string, Entry>,
                          boxes': map<string, Box>, entries': map<string, Entry>, n: string)
  {
    if mode.warnOnly then Lookup(boxes', n) == Lookup(boxes, n) && Lookup(entries', n) == Lookup(entries, n)
    else if n !in boxes then
      && n !in boxes' && (n in entries' <==> n in entries && entries[n].loc.host != mode.host)
      && (n in entries' ==> entries'[n] == entries[n])
    else if n in entries && entries[n].loc.host != mode.host && !mode.authoritative then
      n !in boxes' && n in entries' && entries'[n] == entries[n]
    else
      && n in entries' && entries'[n] == Active(Location(mode.host, boxes[n].part), boxes[n].acl)
      && n in boxes' && !boxes'[n].moving && boxes'[n].messages == boxes[n].messages
      && (!boxes[n].moving ==> boxes'[n] == boxes[n])
  }

  lemma PlainlyResynced(mode: Mode, boxes: map<string, Box>, entries: map<string, Entry>,
                        boxes': map<string, Box>, entries': map<string, Entry>, n: string)
    requires Resynced(mode, Lookup(boxes, n), Lookup(entries, n), PlacedOn(mode.host, Lookup(entries, n)),
                      Lookup(boxes', n), Lookup(entries', n))
    ensures Plainly(mode, boxes, entries, boxes', entries', n)
  {
    if !mode.warnOnly {
      ResyncedMeans(mode, Lookup(boxes, n), Lookup(entries, n), PlacedOn(mode.host, Lookup(entries, n)),
                    Lookup(boxes', n), Lookup(entries', n));
    }
  }

  lemma KeyOrderRecognisesHosted(host: string, boxes: map<string, Box>, entries: map<string, Entry>,
                                 listing: seq<string>, order: seq<string>)
    requires Enumerates(listing, HostedNames(host, entries)) && Increasing(listing)
    requires Enumerates(order, boxes.Keys) && Increasing(order)
    ensures forall n :: n in boxes ==>
              (n in Matched(Restrict(listing, boxes.Keys), order) <==> PlacedOn(host, Lookup(entries, n)))
  {
    var queue := Restrict(listing, boxes.Keys);
    RestrictKeepsDistinct(listing, boxes.Keys);
    RestrictKeepsIncreasing(listing, boxes.Keys);
    SameOrderIsWalkOrder(queue, order);
    AllMatchedIffInWalkOrder(queue, order);
  }

  /**
   When exactly is a resync safe for the mailboxes MUPDATE places here?  When MUPDATE's listing,
   cut down to the mailboxes we have, is in the order of the database walk; in any other order
   some mailbox of ours is found "elsewhere" and wiped.
   */
  lemma HostedSurviveIffInWalkOrder(host: string, boxes: map<string, Box>, entries: map<string, Entry>,
                                    listing: seq<string>, order: seq<string>)
    requires Enumerates(listing, HostedNames(host, entries))
    requires Enumerates(order, boxes.Keys)
    ensures var queue := Restrict(listing, boxes.Keys);
            (forall n :: n in boxes && PlacedOn(host, Lookup(entries, n)) ==>
               LocalAfter(host, false, Some(boxes[n]), Lookup(entries, n), n in Matched(queue, order)).Some?)
            <==> InWalkOrder(queue, order)
  {
    var queue := Restrict(listing, boxes.Keys);
    RestrictKeepsDistinct(listing, boxes.Keys);
    AllMatchedIffInWalkOrder(queue, order);
    forall n | n in boxes && PlacedOn(host, Lookup(entries, n))
      ensures n in queue
      ensures LocalAfter(host, false, Some(boxes[n]), Lookup(entries, n), n in Matched(queue, order)).Some? <==>
              n in Matched(queue, order)
    {
      SurvivesIff(host, boxes[n], Lookup(entries, n), n in Matched(queue, order));
    }
    assert forall n :: n in queue ==> n in boxes && PlacedOn(host, Lookup(entries, n));
  }

  lemma SurvivesIff(host: string, box: Box, entry: Option<Entry>, matched: bool)
    requires PlacedOn(host, entry)
    ensures LocalAfter(host, false, Some(box), entry, matched).Some? <==> matched
  {
  }
}
