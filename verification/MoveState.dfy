/**
 The parties of a mailbox move (the source, the destination and MUPDATE), the single effects that a move has on
 them, and what a resync of both servers makes of any state between two effects.
 */
module MoveState {
  import opened Wrappers
  import opened AccessLists
  import opened Resync

  /** What happens to one step: it works, it fails without effect, or it works but is reported as failed. */
  datatype Reply = Works | Fails | Unheard

  /** The three parties as far as the moving mailbox is concerned. */
  datatype View = View(src: Option<Box>, dst: Option<Box>, entry: Option<Entry>)

  /** The record a resync of its own host leaves, when it keeps the mailbox. */
  function Settled(box: Box): Box {
    if box.moving then Unflagged(box) else box
  }

  /** `copy` has all the messages of `full`. */
  predicate Holds(full: Box, copy: Option<Box>) {
    copy.Some? && copy.value.messages == full.messages
  }

  /** `copy` has everything `full` has. */
  predicate Complete(full: Box, copy: Option<Box>) {
    Holds(full, copy) && SameRights(copy.value.acl, full.acl)
  }

  /** One server has all the messages, the mailbox is not flagged there, and MUPDATE names that server and its ACL. */
  predicate Converged(srcHost: string, dstHost: string, full: Box, v: View) {
    && v.entry.Some? && v.entry.value.Active?
    && ((v.src == Some(full) && v.dst == None && v.entry.value.loc.host == srcHost && v.entry.value.acl == full.acl) ||
        (v.src == None && Holds(full, v.dst) && !v.dst.value.moving && v.entry.value.loc.host == dstHost
         && v.entry.value.acl == v.dst.value.acl))
  }

  /** And the ACL still grants what it did. */
  predicate FullyConverged(srcHost: string, dstHost: string, full: Box, v: View) {
    Converged(srcHost, dstHost, full, v) && SameRights(v.entry.value.acl, full.acl)
  }

  /** A failure-free resync of the source and then of the destination, for this mailbox. */
  function RecoveredView(srcHost: string, dstHost: string, v: View): View {
    var src := LocalAfter(srcHost, false, v.src, v.entry, PlacedOn(srcHost, v.entry));
    var entry := EntryAfter(srcHost, false, v.src, v.entry, PlacedOn(srcHost, v.entry));
    View(src,
         LocalAfter(dstHost, false, v.dst, entry, PlacedOn(dstHost, entry)),
         EntryAfter(dstHost, false, v.dst, entry, PlacedOn(dstHost, entry)))
  }

  /**
   MUPDATE places the mailbox on the destination and all messages are there; or it does not, and the
   source has all of it, or has none of it while the destination does.
   */
  predicate Recoverable(srcHost: string, dstHost: string, full: Box, v: View) {
    if v.entry.Some? && v.entry.value.loc.host != srcHost then
      v.entry.value.loc.host == dstHost && Holds(full, v.dst)
    else if v.src.Some? then Settled(v.src.value) == full
    else Holds(full, v.dst)
  }

  /** The copy that the resyncs will keep grants what the original did. */
  predicate KeepsRights(srcHost: string, full: Box, v: View) {
    (v.entry.Some? && v.entry.value.loc.host != srcHost) || v.src.None? ==> Complete(full, v.dst)
  }

  /** Exactly the recoverable states are brought to convergence by the two resyncs. */
  lemma RecoveryConvergesIff(srcHost: string, dstHost: string, full: Box, v: View)
    requires srcHost != dstHost && !full.moving
    ensures Converged(srcHost, dstHost, full, RecoveredView(srcHost, dstHost, v))
            <==> Recoverable(srcHost, dstHost, full, v)
    ensures FullyConverged(srcHost, dstHost, full, RecoveredView(srcHost, dstHost, v))
            <==> Recoverable(srcHost, dstHost, full, v) && KeepsRights(srcHost, full, v)
  {
  }

  function Received(box: Box, message: string): Box {
    box.(messages := box.messages + [message])
  }

  /** The two resyncs with the local copies declared authoritative. */
  function AuthoritativeView(srcHost: string, dstHost: string, v: View): View {
    var entry := EntryAfter(srcHost, true, v.src, v.entry, PlacedOn(srcHost, v.entry));
    View(LocalAfter(srcHost, true, v.src, v.entry, PlacedOn(srcHost, v.entry)),
         LocalAfter(dstHost, true, v.dst, entry, PlacedOn(dstHost, entry)),
         EntryAfter(dstHost, true, v.dst, entry, PlacedOn(dstHost, entry)))
  }

  /** Nothing is wiped then, so they converge exactly if one server has everything and the other one nothing. */
  lemma AuthoritativeConvergesIff(srcHost: string, dstHost: string, full: Box, v: View)
    requires srcHost != dstHost && !full.moving
    ensures Converged(srcHost, dstHost, full, AuthoritativeView(srcHost, dstHost, v)) <==>
            || (v.dst.None? && v.src.Some? && Settled(v.src.value) == full)
            || (v.src.None? && Holds(full, v.dst))
  {
  }

  /** The recovery an administrator runs after a crash: a resync of the source, then of the destination. */
  method Recover(src: Server, dst: Server, registry: Registry)
    requires src != dst && src.host != dst.host && src.Idle() && dst.Idle()
    modifies src, dst, registry
    ensures forall n ::
              View(Lookup(src.mailboxes, n), Lookup(dst.mailboxes, n), Lookup(registry.entries, n)) ==
              RecoveredView(src.host, dst.host, old(View(Lookup(src.mailboxes, n), Lookup(dst.mailboxes, n),
                                                         Lookup(registry.entries, n))))
  {
    src.DoDump(registry, false, false);
    dst.DoDump(registry, false, false);
  }

  /** Between two moments a crash can separate, at most one party changed, the copy by at most one message. */
  ghost predicate OneEffect(a: View, b: View) {
    || (a.dst == b.dst && a.entry == b.entry)
    || (a.src == b.src && a.dst == b.dst)
    || (a.src == b.src && a.entry == b.entry &&
        (a.dst == None || b.dst == None || a.dst.value.messages == b.dst.value.messages ||
         exists m :: b.dst.value == Received(a.dst.value, m)))
  }

  ghost predicate Stepwise(history: seq<View>) {
    forall i :: 0 < i < |history| ==> OneEffect(history[i - 1], history[i])
  }

  /** A change to the new server's ACL: what it leaves, and the states on the way. */
  function AfterEdit(v: View, dstHost: string, uses: bool, e: Edit): (v': View)
    requires v.dst.Some?
    ensures v'.dst.Some?
  {
    var box := v.dst.value.(acl := Edited(v.dst.value.acl, e));
    View(v.src, Some(box), if uses && Pushes(e) then Some(Active(Location(dstHost, box.part), box.acl)) else v.entry)
  }

  function EditStates(v: View, dstHost: string, uses: bool, e: Edit): seq<View>
    requires v.dst.Some?
  {
    if e.change == Refused then []
    else
      [v.(dst := AfterEdit(v, dstHost, uses, e).dst)]
      + if uses && Pushes(e) then [AfterEdit(v, dstHost, uses, e)] else []
  }

  /** A change that works is two effects: the copy's ACL, and then MUPDATE's entry, with the new ACL and the copy's partition. */
  lemma EditIsTwoEffects(v: View, dstHost: string, e: Edit)
    requires v.dst.Some? && e.change == Done
    ensures var box, states := v.dst.value, EditStates(v, dstHost, true, e);
            && |states| == 2
            && states[0] == View(v.src, Some(Box(box.messages, Apply(box.acl, e.grant), box.part, box.moving)), v.entry)
            && states[1].src == v.src && states[1].dst == states[0].dst
            && states[1].entry == Some(Active(Location(dstHost, box.part), Apply(box.acl, e.grant)))
    ensures EditStates(v, dstHost, false, e) == [EditStates(v, dstHost, true, e)[0]]
  {
  }

  function AfterEdits(v: View, dstHost: string, uses: bool, edits: seq<Edit>): (v': View)
    requires v.dst.Some?
    ensures v'.dst.Some?
  {
    if edits == [] then v
    else AfterEdit(AfterEdits(v, dstHost, uses, edits[..|edits| - 1]), dstHost, uses, edits[|edits| - 1])
  }

  function AclStates(v: View, dstHost: string, uses: bool, edits: seq<Edit>): seq<View>
    requires v.dst.Some?
  {
    if edits == [] then []
    else
      AclStates(v, dstHost, uses, edits[..|edits| - 1])
      + EditStates(AfterEdits(v, dstHost, uses, edits[..|edits| - 1]), dstHost, uses, edits[|edits| - 1])
  }

  lemma {:induction false} StatesInTwo(v: View, dstHost: string, uses: bool, a: seq<Edit>, b: seq<Edit>)
    requires v.dst.Some?
    ensures AfterEdits(v, dstHost, uses, a + b) == AfterEdits(AfterEdits(v, dstHost, uses, a), dstHost, uses, b)
    ensures AclStates(v, dstHost, uses, a + b) ==
            AclStates(v, dstHost, uses, a) + AclStates(AfterEdits(v, dstHost, uses, a), dstHost, uses, b)
  {
    if b == [] {
      assert a + b == a;
    } else {
      assert (a + b)[..|a + b| - 1] == a + b[..|b| - 1];
      StatesInTwo(v, dstHost, uses, a, b[..|b| - 1]);
    }
  }

  /** MUPDATE sends clients to this server. */
  predicate ActiveOn(host: string, entry: Option<Entry>) {
    PlacedOn(host, entry) && entry.value.Active?
  }

  /** What the ACL changes leave: the messages are all there, and MUPDATE has heard of it if any change was pushed. */
  lemma {:induction false} AfterEditsMeans(v: View, dstHost: string, uses: bool, edits: seq<Edit>)
    requires v.dst.Some?
    ensures var v' := AfterEdits(v, dstHost, uses, edits);
            && v'.src == v.src && v'.dst == Some(v.dst.value.(acl := EditedAll(v.dst.value.acl, edits)))
            && (if uses && AnyPushes(edits) then ActiveOn(dstHost, v'.entry) else v'.entry == v.entry)
  {
    if edits != [] {
      var front, e := edits[..|edits| - 1], edits[|edits| - 1];
      AfterEditsMeans(v, dstHost, uses, front);
      AnyPushesOneMore(front, e);
      assert edits == front + [e];
    }
  }

  /** MUPDATE places the mailbox on the destination, whose copy does not grant what the original does. */
  predicate Stripped(dstHost: string, full: Box, v: View) {
    PlacedOn(dstHost, v.entry) && !Complete(full, v.dst)
  }

  ghost predicate AnyStripped(dstHost: string, full: Box, history: seq<View>) {
    exists i :: 0 <= i < |history| && Stripped(dstHost, full, history[i])
  }

  lemma AnyStrippedInTwo(dstHost: string, full: Box, a: seq<View>, b: seq<View>)
    ensures AnyStripped(dstHost, full, a + b) <==> AnyStripped(dstHost, full, a) || AnyStripped(dstHost, full, b)
  {
    var all := a + b;
    if i :| 0 <= i < |a| && Stripped(dstHost, full, a[i]) {
      assert all[i] == a[i];
    }
    if i :| 0 <= i < |b| && Stripped(dstHost, full, b[i]) {
      assert all[|a| + i] == b[i];
    }
    if i :| 0 <= i < |all| && Stripped(dstHost, full, all[i]) {
      assert if i < |a| then all[i] == a[i] else all[i] == b[i - |a|];
    }
  }

  /** A state while the ACL is copied: nothing but the ACL and MUPDATE's entry changes. */
  ghost predicate WhileCopying(v: View, dstHost: string, s: View)
    requires v.dst.Some?
  {
    && s.src == v.src && (s.entry == v.entry || PlacedOn(dstHost, s.entry))
    && s.dst.Some? && s.dst.value.(acl := v.dst.value.acl) == v.dst.value
  }

  lemma {:induction false} AclStatesMean(v: View, dstHost: string, uses: bool, full: Box, edits: seq<Edit>)
    requires v.dst.Some? && Holds(full, v.dst) && !PlacedOn(dstHost, v.entry)
    ensures forall i :: 0 <= i < |AclStates(v, dstHost, uses, edits)| ==>
              WhileCopying(v, dstHost, AclStates(v, dstHost, uses, edits)[i])
    ensures AnyStripped(dstHost, full, AclStates(v, dstHost, uses, edits)) <==>
            uses && Exposed(v.dst.value.acl, full.acl, edits)
  {
    if edits == [] {
      assert edits[..0] == [];
      assert !ExposedAt(v.dst.value.acl, full.acl, edits, 0);
    } else {
      var front, e := edits[..|edits| - 1], edits[|edits| - 1];
      assert edits == front + [e];
      AclStatesMean(v, dstHost, uses, full, front);
      AfterEditsMeans(v, dstHost, uses, front);
      AnyStrippedInTwo(dstHost, full, AclStates(v, dstHost, uses, front),
                       EditStates(AfterEdits(v, dstHost, uses, front), dstHost, uses, e));
      ExposedOneMore(v.dst.value.acl, full.acl, front, e);
      assert edits[..|edits|] == edits;
      AnyPushesOneMore(front, e);
      LastStripped(AfterEdits(v, dstHost, uses, front), dstHost, uses, full, e);
      assert e.change == Refused && AnyPushes(front) && !SameRights(EditedAll(v.dst.value.acl, front), full.acl) ==>
        ExposedAt(v.dst.value.acl, full.acl, front, |front|) by {
        assert front[..|front|] == front;
      }
    }
  }

  lemma LastStripped(v: View, dstHost: string, uses: bool, full: Box, e: Edit)
    requires v.dst.Some? && Holds(full, v.dst)
    ensures AnyStripped(dstHost, full, EditStates(v, dstHost, uses, e)) <==>
            e.change != Refused && (PlacedOn(dstHost, v.entry) || (uses && Pushes(e)))
            && !SameRights(Edited(v.dst.value.acl, e), full.acl)
    ensures forall i :: 0 <= i < |EditStates(v, dstHost, uses, e)| ==>
              WhileCopying(v, dstHost, EditStates(v, dstHost, uses, e)[i])
  {
    var states := EditStates(v, dstHost, uses, e);
    if e.change != Refused {
      assert states[0] == v.(dst := AfterEdit(v, dstHost, uses, e).dst);
      if uses && Pushes(e) {
        assert states[1] == AfterEdit(v, dstHost, uses, e);
      }
    }
  }

  /** Where a group of steps began. */
  datatype Start = Start(history: seq<View>, v: View, others: (map<string, Box>, map<string, Box>, map<string, Entry>))

  class Transfer {
    const src: Server
    const dst: Server
    const registry: Registry?
    const name: string
    /** Every state that a crash can leave. */
    var history: seq<View>

    constructor (src: Server, dst: Server, registry: Registry?, name: string)
      requires src != dst
      ensures this.src == src && this.dst == dst && this.registry == registry && this.name == name
      ensures Valid() && history == [Now()]
    {
      this.src, this.dst, this.registry, this.name := src, dst, registry, name;
      history := [View(Lookup(src.mailboxes, name), Lookup(dst.mailboxes, name),
                       if registry == null then None else Lookup(registry.entries, name))];
    }

    function Now(): View
      reads src`mailboxes, dst`mailboxes, registry
    {
      View(Lookup(src.mailboxes, name), Lookup(dst.mailboxes, name),
           if registry == null then None else Lookup(registry.entries, name))
    }

    /** Everything but the mailbox being moved. */
    ghost function Others(): (map<string, Box>, map<string, Box>, map<string, Entry>)
      reads src`mailboxes, dst`mailboxes, registry
    {
      (src.mailboxes - {name}, dst.mailboxes - {name}, if registry == null then map[] else registry.entries - {name})
    }

    ghost predicate Valid()
      reads this, src`mailboxes, dst`mailboxes, registry
    {
      src != dst && history != [] && history[|history| - 1] == Now() && Stepwise(history)
    }

    /** LOCALCREATE on the remote server, refused when the mailbox is there already. */
    method LocalCreate(part: string, acl: Acl, reply: Reply) returns (ok: bool)
      requires Valid()
      modifies this, dst`mailboxes
      ensures Valid() && Others() == old(Others())
      ensures ok == (reply == Works && old(Now()).dst == None)
      ensures history == old(history) + [Now()]
      ensures Now() == if reply != Fails && old(Now()).dst == None
                       then old(Now()).(dst := Some(Box([], acl, part, false))) else old(Now())
    {
      ok := reply == Works && name !in dst.mailboxes;
      if reply != Fails && name !in dst.mailboxes {
        dst.mailboxes := dst.mailboxes[name := Box([], acl, part, false)];
        assert dst.mailboxes - {name} == old(dst.mailboxes) - {name};
      }
      history := history + [Now()];
    }

    /** mboxlist_update on the local mailbox list. */
    method UpdateLocal(box: Box, reply: Reply) returns (ok: bool)
      requires Valid()
      modifies this, src`mailboxes
      ensures Valid() && Others() == old(Others())
      ensures ok == (reply == Works)
      ensures history == old(history) + [Now()]
      ensures Now() == if reply != Fails then old(Now()).(src := Some(box)) else old(Now())
    {
      ok := reply == Works;
      if reply != Fails {
        src.mailboxes := src.mailboxes[name := box];
        assert src.mailboxes - {name} == old(src.mailboxes) - {name};
      }
      history := history + [Now()];
    }

    /** An MUPDATE command: DEACTIVATE, ACTIVATE, or the destination's MUPDATEPUSH. */
    method SetEntry(entry: Entry, reply: Reply) returns (ok: bool)
      requires Valid() && registry != null
      modifies this, registry
      ensures Valid() && Others() == old(Others())
      ensures ok == (reply == Works)
      ensures history == old(history) + [Now()]
      ensures Now() == if reply != Fails then old(Now()).(entry := Some(entry)) else old(Now())
    {
      ok := reply == Works;
      if reply != Fails {
        match entry {
          case Active(loc, acl) => registry.Activate(name, loc, acl);
          case Reserved(loc) => registry.Deactivate(name, loc);
        }
        assert registry.entries - {name} == old(registry.entries) - {name};
      }
      history := history + [Now()];
    }

    /** One message of the UNDUMP stream is stored on the remote server. */
    method Deliver(message: string)
      requires Valid() && Now().dst.Some?
      modifies this, dst`mailboxes
      ensures Valid() && Others() == old(Others())
      ensures history == old(history) + [Now()]
      ensures Now() == old(Now()).(dst := Some(Received(old(Now()).dst.value, message)))
    {
      dst.mailboxes := dst.mailboxes[name := Received(dst.mailboxes[name], message)];
      assert dst.mailboxes - {name} == old(dst.mailboxes) - {name};
      history := history + [Now()];
    }

    /** UNDUMP: the messages arrive one by one, and the first `delivered` of them get there. */
    method Undump(messages: seq<string>, delivered: nat, reply: bool) returns (ok: bool)
      requires Valid() && Now().dst.Some? && Now().dst.value.messages == []
      modifies this, dst`mailboxes
      ensures Valid() && Others() == old(Others())
      ensures ok == (delivered >= |messages| && reply)
      ensures old(history) <= history
      ensures forall i :: |old(history)| <= i < |history| ==>
                history[i].src == old(Now()).src && history[i].entry == old(Now()).entry
      ensures var k := if delivered < |messages| then delivered else |messages|;
              Now() == old(Now()).(dst := Some(old(Now()).dst.value.(messages := messages[..k])))
    {
      var i := 0;
      while i < |messages| && i < delivered
        invariant 0 <= i <= |messages| && i <= delivered
        invariant Valid() && Others() == old(Others())
        invariant old(history) <= history
        invariant forall i :: |old(history)| <= i < |history| ==>
                    history[i].src == old(Now()).src && history[i].entry == old(Now()).entry
        invariant Now() == old(Now()).(dst := Some(old(Now()).dst.value.(messages := messages[..i])))
      {
        Deliver(messages[i]);
        i := i + 1;
        assert messages[..i] == messages[..i - 1] + [messages[i - 1]];
      }
      ok := delivered >= |messages| && reply;
    }

    /** mboxlist_setacl on the new server: commit the change, then activate the MUPDATE entry. */
    method ChangeAcl(e: Edit)
      requires Valid() && Now().dst.Some?
      modifies this, dst`mailboxes, registry
      ensures Valid() && Others() == old(Others())
      ensures history == old(history) + EditStates(old(Now()), dst.host, registry != null, e)
      ensures Now() == AfterEdit(old(Now()), dst.host, registry != null, e)
    {
      if e.change == Refused {
        return;
      }
      var box := dst.mailboxes[name];
      var acl := Apply(box.acl, e.grant);
      dst.mailboxes := dst.mailboxes[name := box.(acl := acl)];
      assert dst.mailboxes - {name} == old(dst.mailboxes) - {name};
      history := history + [Now()];
      if registry != null && Pushes(e) {
        registry.Activate(name, Location(dst.host, box.part), acl);
        assert registry.entries - {name} == old(registry.entries) - {name};
        history := history + [Now()];
      }
    }

    /** The next change to the ACL. */
    method ChangeNext(e: Edit, ghost from: Start, ghost edits: seq<Edit>)
      requires from.v.dst.Some? && Ran(from, edits)
      modifies this, dst`mailboxes, registry
      ensures Ran(from, edits + [e])
    {
      assert (edits + [e])[..|edits|] == edits;
      ChangeAcl(e);
    }

    /** trashacl: delete every identifier that the new mailbox has; the answers are not looked at. */
    method TrashAcl(o: AclOutcome, ghost from: Start) returns (ok: bool)
      requires from.v.dst.Some? && Ran(from, [])
      modifies this, dst`mailboxes, registry
      ensures ok == Trashed(from.v.dst.value.acl, o)
      ensures Ran(from, if o.listed then Deletes(from.v.dst.value.acl, o.deletes) else [])
    {
      if !o.listed {
        return false;
      }
      var listed := dst.mailboxes[name].acl;
      DeleteAll(listed, o.deletes, from, Deletes(listed, o.deletes));
      ok := listed == [] || (o.answered && |listed| - 1 <= |o.deletes|);
    }

    /** The DELETEACL commands that the new server gets to. */
    method DeleteAll(listed: Acl, changes: seq<Change>, ghost from: Start, ghost edits: seq<Edit>)
      requires from.v.dst.Some? && Ran(from, [])
      requires |edits| == if |listed| <= |changes| then |listed| else |changes|
      requires forall i :: 0 <= i < |edits| ==> edits[i] == Edit(Grant(listed[i].id, ""), changes[i])
      modifies this, dst`mailboxes, registry
      ensures Ran(from, edits)
    {
      hide AclStates, AfterEdits;
      ghost var sent: seq<Edit> := [];
      var i := 0;
      while i < |listed| && i < |changes|
        invariant 0 <= i <= |edits| && sent == edits[..i]
        invariant Ran(from, sent)
      {
        var e := Edit(Grant(listed[i].id, ""), changes[i]);
        ChangeNext(e, from, sent);
        sent := sent + [e];
        i := i + 1;
      }
      assert sent == edits;
    }

    /** dumpacl: set every entry of the original, until an answer is not OK. */
    method DumpAcl(acl: Acl, changes: seq<Change>, ghost from: Start, ghost edits: seq<Edit>) returns (ok: bool)
      requires from.v.dst.Some? && Ran(from, edits)
      modifies this, dst`mailboxes, registry
      ensures ok == AllSet(acl, changes)
      ensures Ran(from, edits + Sets(acl, changes))
    {
      var i := 0;
      ghost var sent, all := edits, edits + Sets(acl, changes);
      assert Sending(acl, changes, 0, sent, all);
      while i < |acl| && i < |changes|
        invariant Sending(acl, changes, i, sent, all)
        invariant Ran(from, sent)
      {
        var e := Edit(acl[i], changes[i]);
        SendingOneMore(acl, changes, i, sent, all);
        ChangeNext(e, from, sent);
        sent := sent + [e];
        if changes[i] != Done {
          return false;
        }
        i := i + 1;
      }
      SendingEnds(acl, changes, i, sent, all);
      ok := i == |acl|;
    }

    ghost function Here(): Start
      reads this, src`mailboxes, dst`mailboxes, registry
    {
      Start(history, Now(), Others())
    }

    /** The history has gone on from there with these changes to the new server's ACL. */
    ghost predicate Ran(from: Start, edits: seq<Edit>)
      requires from.v.dst.Some?
      reads this, src`mailboxes, dst`mailboxes, registry
    {
      && Valid() && Others() == from.others
      && history == from.history + AclStates(from.v, dst.host, registry != null, edits)
      && Now() == AfterEdits(from.v, dst.host, registry != null, edits)
    }

    /** mboxlist_deletemailbox on the local server. */
    method DeleteLocal(reply: Reply) returns (ok: bool)
      requires Valid()
      modifies this, src`mailboxes
      ensures Valid() && Others() == old(Others())
      ensures ok == (reply == Works)
      ensures history == old(history) + [Now()]
      ensures Now() == if reply != Fails then old(Now()).(src := None) else old(Now())
    {
      ok := reply == Works;
      if reply != Fails {
        src.mailboxes := src.mailboxes - {name};
        assert src.mailboxes - {name} == old(src.mailboxes) - {name};
      }
      history := history + [Now()];
    }

    /** LOCALDELETE on the remote server. */
    method DeleteRemote(reply: Reply) returns (ok: bool)
      requires Valid()
      modifies this, dst`mailboxes
      ensures Valid() && Others() == old(Others())
      ensures ok == (reply == Works)
      ensures history == old(history) + [Now()]
      ensures Now() == if reply != Fails then old(Now()).(dst := None) else old(Now())
    {
      ok := reply == Works;
      if reply != Fails {
        dst.mailboxes := dst.mailboxes - {name};
        assert dst.mailboxes - {name} == old(dst.mailboxes) - {name};
      }
      history := history + [Now()];
    }
  }
}
