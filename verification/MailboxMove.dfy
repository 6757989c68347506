/**
 do_xfer_single: moving one mailbox from this server to another, in steps that may each be
 refused, succeed, or take effect while their reply is lost, with backouts for the first failure.
 A crash may fall between any two effects, so every intermediate state is kept in `history`.
 */
module MailboxMove {
  import opened Wrappers
  import opened AccessLists
  import opened Resync
  import opened MoveState
  import WireStrings

  datatype Outcomes = Outcomes(
    create: Reply, flag: Reply, deactivate: Reply, delivered: nat, undump: bool, acl: AclOutcome,
    activate: Reply, push: Reply, delete: Reply,
    backoutRegistry: Reply, backoutBox: Reply, backoutFlag: Reply)

  datatype Result = Moved | BadPartition | BadServer | Failed

  /** Everything up to step 4 works: the new server has all the messages. */
  predicate Filled(full: Box, dst: Option<Box>, uses: bool, prereserved: bool, o: Outcomes) {
    && dst == None && o.create == Works && o.flag == Works
    && (uses && !prereserved ==> o.deactivate == Works)
    && o.delivered >= |full.messages| && o.undump
  }

  /** Steps 5 and 6 report success too: the mailbox now lives on the new server. */
  predicate HandsOver(full: Box, uses: bool, createAcl: Acl, o: Outcomes) {
    AclCopied(createAcl, full.acl, o.acl) && (uses ==> o.activate == Works)
  }

  /** MUPDATE has been told of the new server, by a change of the ACL there or by the activation. */
  predicate Told(full: Box, createAcl: Acl, o: Outcomes) {
    || AnyPushes(Edits(createAcl, full.acl, o.acl))
    || (AclCopied(createAcl, full.acl, o.acl) && o.activate != Fails)
  }

  /**
   How the mailbox is lost: MUPDATE has been told of the new server, a later step fails, the entry cannot be taken
   back, and the backout then deletes the copy that the entry names.
   */
  predicate LosesCopy(full: Box, dst: Option<Box>, prereserved: bool, createAcl: Acl, o: Outcomes) {
    && Filled(full, dst, true, prereserved, o) && !HandsOver(full, true, createAcl, o) && Told(full, createAcl, o)
    && o.backoutRegistry == Fails && o.backoutBox != Fails
  }

  /**
   How rights are lost or gained: a crash while MUPDATE already names the new server and its ACL is not yet the
   original's, or an activation although a deletion there went wrong.
   */
  ghost predicate Strips(full: Box, dst: Option<Box>, prereserved: bool, createAcl: Acl, o: Outcomes) {
    && Filled(full, dst, true, prereserved, o)
    && (|| Exposed(createAcl, full.acl, Edits(createAcl, full.acl, o.acl))
        || (AclCopied(createAcl, full.acl, o.acl) && o.activate != Fails
            && !SameRights(EditedAll(createAcl, Edits(createAcl, full.acl, o.acl)), full.acl)))
  }

  predicate NoneUnheard(o: Outcomes) {
    Unheard !in {o.create, o.flag, o.deactivate}
  }

  predicate BackoutsWork(o: Outcomes) {
    o.backoutRegistry == o.backoutBox == o.backoutFlag == Works
  }

  /** The source has the whole mailbox. */
  predicate AtHome(full: Box, v: View) {
    v.src.Some? && Settled(v.src.value) == full
  }

  /** MUPDATE places the mailbox on a server that has all of its messages. */
  predicate WellPlaced(srcHost: string, dstHost: string, full: Box, v: View) {
    (PlacedOn(srcHost, v.entry) && AtHome(full, v)) || (PlacedOn(dstHost, v.entry) && Holds(full, v.dst))
  }

  ghost predicate AllHeld(full: Box, history: seq<View>) {
    forall i :: 0 <= i < |history| ==> Held(full, history[i])
  }

  /** Some server has all the messages. */
  predicate Held(full: Box, v: View) {
    Holds(full, v.src) || Holds(full, v.dst)
  }

  ghost predicate AllWellPlaced(srcHost: string, dstHost: string, full: Box, history: seq<View>) {
    forall i :: 0 <= i < |history| ==> WellPlaced(srcHost, dstHost, full, history[i])
  }

  ghost predicate AllAtHome(full: Box, history: seq<View>) {
    forall i :: 0 <= i < |history| ==> AtHome(full, history[i])
  }

  /** Wherever the crash falls, recovery converges. */
  ghost predicate AllConverge(srcHost: string, dstHost: string, full: Box, history: seq<View>) {
    forall i :: 0 <= i < |history| ==> Converged(srcHost, dstHost, full, RecoveredView(srcHost, dstHost, history[i]))
  }

  ghost predicate AllConvergeFully(srcHost: string, dstHost: string, full: Box, history: seq<View>) {
    forall i :: 0 <= i < |history| ==> FullyConverged(srcHost, dstHost, full, RecoveredView(srcHost, dstHost, history[i]))
  }

  /** An active entry names a server that has all the messages. */
  predicate Served(srcHost: string, dstHost: string, full: Box, v: View) {
    v.entry.Some? && v.entry.value.Active? ==>
      || (v.entry.value.loc.host == srcHost && Holds(full, v.src))
      || (v.entry.value.loc.host == dstHost && Holds(full, v.dst))
  }

  ghost predicate AllServed(srcHost: string, dstHost: string, full: Box, history: seq<View>) {
    forall i :: 0 <= i < |history| ==> Served(srcHost, dstHost, full, history[i])
  }

  lemma WellPlacedConverges(srcHost: string, dstHost: string, full: Box, history: seq<View>)
    requires srcHost != dstHost && !full.moving && AllWellPlaced(srcHost, dstHost, full, history)
    ensures AllConverge(srcHost, dstHost, full, history) && AllServed(srcHost, dstHost, full, history)
    ensures AllConvergeFully(srcHost, dstHost, full, history) <==> !AnyStripped(dstHost, full, history)
  {
    forall i | 0 <= i < |history|
      ensures Converged(srcHost, dstHost, full, RecoveredView(srcHost, dstHost, history[i]))
      ensures FullyConverged(srcHost, dstHost, full, RecoveredView(srcHost, dstHost, history[i])) <==>
              !Stripped(dstHost, full, history[i])
      ensures Served(srcHost, dstHost, full, history[i])
    {
      assert WellPlaced(srcHost, dstHost, full, history[i]);
      RecoveryConvergesIff(srcHost, dstHost, full, history[i]);
    }
  }

  /** MUPDATE sends clients to the new server, which has no copy any more. */
  predicate Gone(dstHost: string, v: View) {
    ActiveOn(dstHost, v.entry) && v.dst == None
  }

  lemma GoneDoesNotConverge(srcHost: string, dstHost: string, full: Box, history: seq<View>)
    requires srcHost != dstHost && !full.moving && history != [] && Gone(dstHost, history[|history| - 1])
    ensures !AllConverge(srcHost, dstHost, full, history) && !AllConvergeFully(srcHost, dstHost, full, history)
    ensures !AllServed(srcHost, dstHost, full, history)
  {
    var v := history[|history| - 1];
    RecoveryConvergesIff(srcHost, dstHost, full, v);
    assert !Converged(srcHost, dstHost, full, RecoveredView(srcHost, dstHost, v));
    assert !FullyConverged(srcHost, dstHost, full, RecoveredView(srcHost, dstHost, v));
    assert !Served(srcHost, dstHost, full, v);
  }

  /** The destination has messages already. */
  predicate Receives(s: View) {
    s.dst.Some? && s.dst.value.messages != []
  }

  /**
   As soon as the destination has messages, the source's record is flagged and names the destination, and MUPDATE holds
   the name reserved on the source or places it on the destination: nobody is sent to the source any more.
   */
  predicate Fenced(p: Plan, full: Box, s: View) {
    Receives(s) ==>
      && (s.src == None || s.src == Some(full.(moving := true, part := p.dstHost + "!" + full.part)))
      && (p.uses && !p.prereserved && !PlacedOn(p.dstHost, s.entry) ==>
            s.entry == Some(Reserved(Location(p.srcHost, full.part))))
  }

  ghost predicate AllFenced(p: Plan, full: Box, history: seq<View>) {
    forall i :: 0 <= i < |history| ==> Fenced(p, full, history[i])
  }

  lemma {:induction false} CopyingFenced(p: Plan, full: Box, v: View, edits: seq<Edit>)
    requires v.dst.Some? && (Receives(v) ==> Fenced(p, full, v))
    ensures AllFenced(p, full, AclStates(v, p.dstHost, p.uses, edits))
  {
    if edits != [] {
      var front, e := edits[..|edits| - 1], edits[|edits| - 1];
      CopyingFenced(p, full, v, front);
      AfterEditsMeans(v, p.dstHost, p.uses, front);
      var states, more := AclStates(v, p.dstHost, p.uses, front),
                          EditStates(AfterEdits(v, p.dstHost, p.uses, front), p.dstHost, p.uses, e);
      assert AclStates(v, p.dstHost, p.uses, edits) == states + more;
      assert AllFenced(p, full, more);
    }
  }

  datatype Backouts = Backouts(mupdate: bool, remotebox: bool, remoteflag: bool)

  /** Steps 2 and 3: the new mailbox, the flag on ours, and the reservation. */
  method Reserve(t: Transfer, part: string, prereserved: bool, createAcl: Acl, o: Outcomes)
    returns (ok: bool, b: Backouts)
    requires t.Valid() && |t.history| == 1
    requires t.Now().src.Some? && !t.Now().src.value.moving
    requires '!' !in t.dst.host
    modifies t, t.src`mailboxes, t.dst`mailboxes, t.registry
    ensures t.Valid() && t.Others() == old(t.Others()) && t.history[0] == old(t.Now())
    ensures AllAtHome(old(t.Now()).src.value, t.history)
    ensures PlacedOn(t.src.host, old(t.Now()).entry) ==>
              forall i :: 0 <= i < |t.history| ==> PlacedOn(t.src.host, t.history[i].entry)
    ensures ok == (old(t.Now()).dst == None && o.create == Works && o.flag == Works
                   && (t.registry != null && !prereserved ==> o.deactivate == Works))
    ensures ok ==> b.remotebox && (b.remoteflag <==> t.registry != null && !prereserved)
    ensures ok ==> t.Now().dst == Some(Box([], createAcl, part, false))
    ensures !b.mupdate && (b.remoteflag ==> b.remotebox && t.registry != null && !prereserved)
    ensures t.registry == null ==> t.Now().entry == old(t.Now()).entry
    // While messages are copied our record says where to, and MUPDATE holds the name for us.
    ensures ok ==>
              var full := old(t.Now()).src.value;
              && t.Now().src == Some(full.(moving := true, part := t.dst.host + "!" + full.part))
              && (t.registry != null && !prereserved ==> t.Now().entry == Some(Reserved(Location(t.src.host, full.part))))
              && forall i :: 0 <= i < |t.history| ==> !Receives(t.history[i])
    // What is left to undo when a step was refused.
    ensures var v0 := old(t.Now());
            NoneUnheard(o) ==>
              && (b.remotebox || t.Now().dst == v0.dst) && (b.remotebox ==> v0.dst == None)
              && (ok || t.Now().entry == v0.entry)
              && (t.Now().src == v0.src <==> !(v0.dst == None && o.create == Works && o.flag == Works))
              && (t.registry != null && !prereserved ==> b.remoteflag || t.Now().src == v0.src)
  {
    var full := t.src.mailboxes[t.name];
    ghost var copied := full.(moving := true, part := t.dst.host + "!" + full.part);
    assert Settled(copied) == full by {
      StripServerUndoesPrefix(t.dst.host, full.part);
    }
    b := Backouts(false, false, false);
    // Step 2: LOCALCREATE on the remote server
    ok := t.LocalCreate(part, createAcl, o.create);
    if ok {
      b := b.(remotebox := true);
    }
    // Step 2.5: mark the mailbox as remote on the local server
    if ok {
      ok := t.UpdateLocal(Box(full.messages, full.acl, t.dst.host + "!" + full.part, true), o.flag);
    }
    // Step 3: reserve the MUPDATE entry, on our own host
    if ok && t.registry != null && !prereserved {
      b := b.(remoteflag := true);
      ok := t.SetEntry(Reserved(Location(t.src.host, full.part)), o.deactivate);
    }
  }

  /** Step 5: the ACL reaches the new server, which tells MUPDATE of every change. */
  method CopyAcl(t: Transfer, full: Box, o: AclOutcome) returns (ok: bool)
    requires t.Valid() && t.Now().dst.Some?
    modifies t, t.dst`mailboxes, t.registry
    ensures t.Ran(old(t.Here()), Edits(old(t.Now()).dst.value.acl, full.acl, o))
    ensures ok == AclCopied(old(t.Now()).dst.value.acl, full.acl, o)
  {
    ghost var from := t.Here();
    assert from.history + [] == from.history;
    ghost var edits := if o.listed then Deletes(from.v.dst.value.acl, o.deletes) else [];
    ok := t.TrashAcl(o, from);
    if ok {
      ok := t.DumpAcl(full.acl, o.sets, from, edits);
    } else {
      assert edits + [] == edits;
    }
  }

  /** As long as MUPDATE names the source, recovery is safe. */
  ghost predicate AllNamed(srcHost: string, history: seq<View>) {
    forall i :: 0 <= i < |history| ==> PlacedOn(srcHost, history[i].entry)
  }

  lemma NamedIsWellPlaced(srcHost: string, dstHost: string, full: Box, history: seq<View>)
    requires srcHost != dstHost && AllAtHome(full, history) && AllNamed(srcHost, history)
    ensures AllWellPlaced(srcHost, dstHost, full, history) && !AnyStripped(dstHost, full, history)
  {
  }

  /** What copying the ACL adds to the history. */
  lemma CopyingAcl(srcHost: string, dstHost: string, uses: bool, full: Box, history: seq<View>, v: View, edits: seq<Edit>)
    requires srcHost != dstHost && v.dst.Some? && Holds(full, v.dst) && AtHome(full, v) && AllAtHome(full, history)
    ensures var h := history + AclStates(v, dstHost, uses, edits);
            && AllAtHome(full, h)
            && (PlacedOn(srcHost, v.entry) && AllNamed(srcHost, history) ==>
                  && AllWellPlaced(srcHost, dstHost, full, h)
                  && (AnyStripped(dstHost, full, h) <==> uses && Exposed(v.dst.value.acl, full.acl, edits)))
  {
    CopyingStaysHome(dstHost, uses, full, history, v, edits);
    if PlacedOn(srcHost, v.entry) && AllNamed(srcHost, history) {
      var states := AclStates(v, dstHost, uses, edits);
      NamedIsWellPlaced(srcHost, dstHost, full, history);
      AclStatesMean(v, dstHost, uses, full, edits);
      AnyStrippedInTwo(dstHost, full, history, states);
      forall i | 0 <= i < |history + states| ensures WellPlaced(srcHost, dstHost, full, (history + states)[i]) {
        if i < |history| {
          assert WellPlaced(srcHost, dstHost, full, history[i]);
        } else {
          assert WhileCopying(v, dstHost, states[i - |history|]);
        }
      }
    }
  }

  lemma {:induction false} CopyingStaysHome(dstHost: string, uses: bool, full: Box, history: seq<View>, v: View, edits: seq<Edit>)
    requires v.dst.Some? && AtHome(full, v) && AllAtHome(full, history)
    ensures AllAtHome(full, history + AclStates(v, dstHost, uses, edits))
  {
    if edits == [] {
      assert history + [] == history;
    } else {
      var front, e := edits[..|edits| - 1], edits[|edits| - 1];
      CopyingStaysHome(dstHost, uses, full, history, v, front);
      AfterEditsMeans(v, dstHost, uses, front);
      var h, states := history + AclStates(v, dstHost, uses, front),
                       EditStates(AfterEdits(v, dstHost, uses, front), dstHost, uses, e);
      assert history + AclStates(v, dstHost, uses, edits) == h + states;
    }
  }

  function Last(history: seq<View>): View
    requires history != []
  {
    history[|history| - 1]
  }

  /** What is moved between which servers, and how. */
  datatype Plan = Plan(srcHost: string, dstHost: string, uses: bool, prereserved: bool, part: string, createAcl: Acl)

  function PlanOf(t: Transfer, part: string, prereserved: bool, createAcl: Acl): Plan {
    Plan(t.src.host, t.dst.host, t.registry != null, prereserved, part, createAcl)
  }

  /** What steps 2 to 5 leave: their states `h`, and what there is to undo. */
  ghost predicate CopyOutSpec(p: Plan, o: Outcomes, v0: View, h: seq<View>, b: Backouts, ok: bool)
    requires v0.src.Some? && h != []
  {
    var full := v0.src.value;
    var filled := Filled(full, v0.dst, p.uses, p.prereserved, o);
    var edits := Edits(p.createAcl, full.acl, o.acl);
    && AllAtHome(full, h)
    && ok == (filled && AclCopied(p.createAcl, full.acl, o.acl))
    && (PlacedOn(p.srcHost, v0.entry) ==>
          && AllWellPlaced(p.srcHost, p.dstHost, full, h)
          && (AnyStripped(p.dstHost, full, h) <==> filled && p.uses && Exposed(p.createAcl, full.acl, edits))
          && (if filled && p.uses && AnyPushes(edits) then ActiveOn(p.dstHost, Last(h).entry)
              else PlacedOn(p.srcHost, Last(h).entry)))
    && (filled ==> b == Backouts(true, true, p.uses && !p.prereserved)
                   && Last(h).dst == Some(Box(full.messages, EditedAll(p.createAcl, edits), p.part, false))
                   && AllFenced(p, full, h))
    && (b.mupdate ==> b.remotebox && (p.uses && !p.prereserved ==> b.remoteflag))
    && (b.remoteflag ==> b.remotebox && p.uses && !p.prereserved)
    && (NoneUnheard(o) ==> LeftToUndo(p, o, v0, Last(h), b))
  }

  /** What is left to undo when a step was refused. */
  predicate LeftToUndo(p: Plan, o: Outcomes, v0: View, v: View, b: Backouts) {
    && (b.remotebox || v.dst == v0.dst) && (b.remotebox ==> v0.dst == None)
    && (b.mupdate || v.entry == v0.entry)
    && (v.src == v0.src <==> !(v0.dst == None && o.create == Works && o.flag == Works))
    && (p.uses && !p.prereserved ==> b.remoteflag || v.src == v0.src)
  }

  /** What steps 2 to 4 leave; the source still has everything and MUPDATE, if it did, still names it. */
  ghost predicate FillSpec(p: Plan, o: Outcomes, v0: View, h: seq<View>, b: Backouts, ok: bool)
    requires v0.src.Some? && h != []
  {
    var full := v0.src.value;
    && AllAtHome(full, h) && (PlacedOn(p.srcHost, v0.entry) ==> AllNamed(p.srcHost, h))
    && ok == Filled(full, v0.dst, p.uses, p.prereserved, o)
    && (ok ==> b == Backouts(true, true, p.uses && !p.prereserved)
               && Last(h).dst == Some(Box(full.messages, p.createAcl, p.part, false))
               && AllFenced(p, full, h))
    && (b.mupdate ==> b.remotebox && (p.uses && !p.prereserved ==> b.remoteflag))
    && (b.remoteflag ==> b.remotebox && p.uses && !p.prereserved)
    && (NoneUnheard(o) ==> LeftToUndo(p, o, v0, Last(h), b))
  }

  /** Steps 2 to 4: the new mailbox, the flag and the reservation, and the messages. */
  method FillRemote(t: Transfer, part: string, prereserved: bool, createAcl: Acl, o: Outcomes)
    returns (ok: bool, b: Backouts)
    requires t.Valid() && |t.history| == 1
    requires t.Now().src.Some? && !t.Now().src.value.moving
    requires '!' !in t.dst.host && t.src.host != t.dst.host
    modifies t, t.src`mailboxes, t.dst`mailboxes, t.registry
    ensures t.Valid() && t.Others() == old(t.Others()) && t.history != [] && t.history[0] == old(t.Now())
    ensures FillSpec(PlanOf(t, part, prereserved, createAcl), o, old(t.Now()), t.history, b, ok)
  {
    var full := t.src.mailboxes[t.name];
    ok, b := Reserve(t, part, prereserved, createAcl, o);
    if ok {
      b := b.(mupdate := true);
      // Step 4: dump the mailbox to the remote server
      ok := t.Undump(full.messages, o.delivered, o.undump);
      assert full.messages[..|full.messages|] == full.messages;
    }
  }

  lemma NotFilled(p: Plan, o: Outcomes, v0: View, h: seq<View>, b: Backouts)
    requires v0.src.Some? && h != [] && p.srcHost != p.dstHost && FillSpec(p, o, v0, h, b, false)
    ensures CopyOutSpec(p, o, v0, h, b, false)
  {
    if PlacedOn(p.srcHost, v0.entry) {
      NamedIsWellPlaced(p.srcHost, p.dstHost, v0.src.value, h);
    }
  }

  lemma FilledThenAcl(p: Plan, o: Outcomes, v0: View, h: seq<View>, b: Backouts, h': seq<View>)
    requires v0.src.Some? && h != [] && h' != [] && p.srcHost != p.dstHost && FillSpec(p, o, v0, h, b, true)
    requires var edits := Edits(p.createAcl, v0.src.value.acl, o.acl);
             && h' == h + AclStates(Last(h), p.dstHost, p.uses, edits)
             && Last(h') == AfterEdits(Last(h), p.dstHost, p.uses, edits)
    ensures CopyOutSpec(p, o, v0, h', b, AclCopied(p.createAcl, v0.src.value.acl, o.acl))
  {
    var full, v := v0.src.value, Last(h);
    var edits := Edits(p.createAcl, full.acl, o.acl);
    assert AtHome(full, v);
    assert Fenced(p, full, v);
    CopyingFenced(p, full, v, edits);
    CopyingAcl(p.srcHost, p.dstHost, p.uses, full, h, v, edits);
    AfterEditsMeans(v, p.dstHost, p.uses, edits);
  }

  /** Steps 2 to 5: everything up to the point where MUPDATE is told about the move by this server. */
  method CopyOut(t: Transfer, part: string, prereserved: bool, createAcl: Acl, o: Outcomes)
    returns (ok: bool, b: Backouts)
    requires t.Valid() && |t.history| == 1
    requires t.Now().src.Some? && !t.Now().src.value.moving
    requires '!' !in t.dst.host && t.src.host != t.dst.host
    modifies t, t.src`mailboxes, t.dst`mailboxes, t.registry
    ensures t.Valid() && t.Others() == old(t.Others()) && t.history != [] && t.history[0] == old(t.Now())
    ensures CopyOutSpec(PlanOf(t, part, prereserved, createAcl), o, old(t.Now()), t.history, b, ok)
  {
    var full := t.src.mailboxes[t.name];
    ghost var v0, p := t.Now(), PlanOf(t, part, prereserved, createAcl);
    ok, b := FillRemote(t, part, prereserved, createAcl, o);
    ghost var h := t.history;
    if ok {
      ok := CopyAcl(t, full, o.acl);
      FilledThenAcl(p, o, v0, h, b, t.history);
    } else {
      NotFilled(p, o, v0, h, b);
    }
  }

  /** What steps 6 and 7 add to the states `h` and leave of what there is to undo. */
  ghost predicate HandOverSpec(p: Plan, o: Outcomes, full: Box, h: seq<View>, b: Backouts, h': seq<View>, b': Backouts, ok: bool)
    requires h != [] && Last(h).dst.Some? && h' != []
  {
    var v, v' := Last(h), Last(h');
    && h <= h' && v'.dst == v.dst
    && (forall i :: |h| <= i < |h'| ==> HandingOver(p.dstHost, p.uses, o.activate, v, h'[i]))
    && (if p.uses && o.activate != Works then
          && !ok && b' == b && (o.activate == Unheard ==> |h'| > |h|)
          && v' == v.(entry := if o.activate == Unheard then Some(Active(Location(p.dstHost, "MOVED"), full.acl)) else v.entry)
        else
          && |h'| > |h| && b' == Backouts(false, false, false) && ok == (o.delete == Works)
          && v'.src == (if o.delete == Fails then v.src else None)
          && (p.uses ==> v'.entry == Some(
                if o.push == Fails then Active(Location(p.dstHost, "MOVED"), full.acl)
                else Active(Location(p.dstHost, v.dst.value.part), v.dst.value.acl))))
  }

  /** Steps 6 and 7: from the activation on behalf of the destination to the deletion of the local copy. */
  method HandOver(t: Transfer, full: Box, b: Backouts, o: Outcomes, ghost p: Plan) returns (ok: bool, b': Backouts)
    requires t.Valid() && t.Now().dst.Some?
    requires p.dstHost == t.dst.host && p.uses == (t.registry != null)
    modifies t, t.src`mailboxes, t.dst`mailboxes, t.registry
    ensures t.Valid() && t.Others() == old(t.Others())
    ensures HandOverSpec(p, o, full, old(t.history), b, t.history, b', ok)
  {
    ok, b' := true, b;
    // Step 6: activate the entry on behalf of the destination
    if t.registry != null {
      ok := t.SetEntry(Active(Location(t.dst.host, "MOVED"), full.acl), o.activate);
    }
    if ok {
      b' := Backouts(false, false, false);
      // Step 6.5: have the destination push its own entry; the result does not matter
      if t.registry != null {
        var box := t.dst.mailboxes[t.name];
        var _ := t.SetEntry(Active(Location(t.dst.host, box.part), box.acl), o.push);
      }
      // Step 7: delete the local copy
      ok := t.DeleteLocal(o.delete);
    }
  }

  /** A state while the mailbox is handed over: the source keeps it until MUPDATE, if used, names the destination. */
  ghost predicate HandingOver(dstHost: string, uses: bool, activate: Reply, v: View, s: View) {
    && s.dst == v.dst && (s.src == v.src || (s.src == None && !(uses && activate == Fails)))
    && (if uses && activate != Fails then PlacedOn(dstHost, s.entry) else s.entry == v.entry)
  }

  lemma HandingOverMeans(p: Plan, o: Outcomes, full: Box, h: seq<View>, b: Backouts, h': seq<View>, b': Backouts, ok: bool)
    requires p.srcHost != p.dstHost && h != [] && h' != []
    requires Holds(full, Last(h).dst) && AllWellPlaced(p.srcHost, p.dstHost, full, h)
    requires HandOverSpec(p, o, full, h, b, h', b', ok) && p.uses
    ensures AllWellPlaced(p.srcHost, p.dstHost, full, h')
    ensures AnyStripped(p.dstHost, full, h') <==>
            AnyStripped(p.dstHost, full, h) || (o.activate != Fails && !SameRights(Last(h).dst.value.acl, full.acl))
  {
    var v, more := Last(h), h'[|h|..];
    assert h' == h + more;
    AnyStrippedInTwo(p.dstHost, full, h, more);
    assert WellPlaced(p.srcHost, p.dstHost, full, v);
    forall i | 0 <= i < |h'| ensures WellPlaced(p.srcHost, p.dstHost, full, h'[i]) {
      if i < |h| {
        assert WellPlaced(p.srcHost, p.dstHost, full, h[i]);
      } else {
        assert HandingOver(p.dstHost, p.uses, o.activate, v, h'[i]);
      }
    }
    forall i | 0 <= i < |more|
      ensures Stripped(p.dstHost, full, more[i]) <==>
              if o.activate != Fails then !SameRights(v.dst.value.acl, full.acl) else Stripped(p.dstHost, full, v)
    {
      assert HandingOver(p.dstHost, p.uses, o.activate, v, h'[|h| + i]);
    }
    assert o.activate != Fails ==> (Stripped(p.dstHost, full, more[0]) <==> !SameRights(v.dst.value.acl, full.acl));
  }

  /** What the backouts `b` add to the states `h`. */
  ghost predicate BackOutSpec(p: Plan, o: Outcomes, full: Box, h: seq<View>, b: Backouts, h': seq<View>)
    requires h != [] && h' != []
  {
    var v := Last(h);
    var untold, deletes := b.mupdate && p.uses && o.backoutRegistry != Fails, b.remotebox && o.backoutBox != Fails;
    && h <= h'
    && (b == Backouts(false, false, false) ==> h' == h)
    && (forall i :: |h| <= i < |h'| ==> BackingOut(p.srcHost, full, untold, deletes, v, h'[i]))
    && Last(h') == View(
         if b.remoteflag && o.backoutFlag != Fails then Some(full) else v.src,
         if deletes then None else v.dst,
         if untold then Some(Active(Location(p.srcHost, full.part), full.acl)) else v.entry)
  }

  /** The code after the label "done": undo what was done, newest first. */
  method BackOut(t: Transfer, full: Box, b: Backouts, o: Outcomes, ghost p: Plan)
    requires t.Valid()
    requires p.srcHost == t.src.host && p.uses == (t.registry != null)
    modifies t, t.src`mailboxes, t.dst`mailboxes, t.registry
    ensures t.Valid() && t.Others() == old(t.Others())
    ensures BackOutSpec(p, o, full, old(t.history), b, t.history)
  {
    if t.registry != null && b.mupdate {
      var _ := t.SetEntry(Active(Location(t.src.host, full.part), full.acl), o.backoutRegistry);
    }
    if b.remotebox {
      var _ := t.DeleteRemote(o.backoutBox);
    }
    if b.remoteflag {
      var _ := t.UpdateLocal(full, o.backoutFlag);
    }
  }

  /** A state while a failed move is undone. */
  ghost predicate BackingOut(srcHost: string, full: Box, untold: bool, deletes: bool, v: View, s: View) {
    && (s.src == v.src || s.src == Some(full))
    && (s.dst == v.dst || (deletes && s.dst == None))
    && s.entry == if untold then Some(Active(Location(srcHost, full.part), full.acl)) else v.entry
  }

  lemma BackingOutMeans(p: Plan, o: Outcomes, full: Box, h: seq<View>, b: Backouts, h': seq<View>)
    requires p.srcHost != p.dstHost && !full.moving && h != [] && h' != []
    requires AtHome(full, Last(h)) && AllWellPlaced(p.srcHost, p.dstHost, full, h)
    requires BackOutSpec(p, o, full, h, b, h')
    requires (b.mupdate && p.uses && o.backoutRegistry != Fails) || !(b.remotebox && o.backoutBox != Fails)
             || PlacedOn(p.srcHost, Last(h).entry)
    ensures AllWellPlaced(p.srcHost, p.dstHost, full, h')
    ensures AnyStripped(p.dstHost, full, h') <==> AnyStripped(p.dstHost, full, h)
  {
    var v, more := Last(h), h'[|h|..];
    var untold, deletes := b.mupdate && p.uses && o.backoutRegistry != Fails, b.remotebox && o.backoutBox != Fails;
    assert h' == h + more;
    AnyStrippedInTwo(p.dstHost, full, h, more);
    assert WellPlaced(p.srcHost, p.dstHost, full, v);
    forall i | 0 <= i < |h'| ensures WellPlaced(p.srcHost, p.dstHost, full, h'[i]) {
      if i < |h| {
        assert WellPlaced(p.srcHost, p.dstHost, full, h[i]);
      } else {
        assert BackingOut(p.srcHost, full, untold, deletes, v, h'[i]);
      }
    }
    forall i | 0 <= i < |more| ensures Stripped(p.dstHost, full, more[i]) ==> Stripped(p.dstHost, full, v) {
      assert BackingOut(p.srcHost, full, untold, deletes, v, h'[|h| + i]);
    }
  }

  /** What a run of the steps promises about its states `history`. */
  ghost predicate MoveSpec(p: Plan, o: Outcomes, v0: View, history: seq<View>, ok: bool)
    requires v0.src.Some? && history != []
  {
    var full := v0.src.value;
    // No step, whatever becomes of it, endangers the contents.
    && AllHeld(full, history)
    && (p.uses && PlacedOn(p.srcHost, v0.entry) ==> ConvergeSpec(p, o, full, v0.dst, history))
    && (ok ==> MovedSpec(p, o, full, Last(history)) && AllFenced(p, full, history))
    && (!ok ==> UndoneSpec(p, o, v0, Last(history)) && StrandedSpec(p, o, v0, Last(history)))
  }

  /** Crash convergence at every point of the run: with all messages, and with the rights as well; and safety: clients
      are only ever sent to a server that has all messages. */
  ghost predicate ConvergeSpec(p: Plan, o: Outcomes, full: Box, dst: Option<Box>, history: seq<View>) {
    && (AllConverge(p.srcHost, p.dstHost, full, history) <==> !LosesCopy(full, dst, p.prereserved, p.createAcl, o))
    && (AllServed(p.srcHost, p.dstHost, full, history) <==> !LosesCopy(full, dst, p.prereserved, p.createAcl, o))
    && (AllConvergeFully(p.srcHost, p.dstHost, full, history) <==>
          !LosesCopy(full, dst, p.prereserved, p.createAcl, o) && !Strips(full, dst, p.prereserved, p.createAcl, o))
  }

  /** A successful move: the whole mailbox is on the destination only, and MUPDATE says so. */
  ghost predicate MovedSpec(p: Plan, o: Outcomes, full: Box, v: View) {
    && v.src == None && Holds(full, v.dst) && !v.dst.value.moving && v.dst.value.part == p.part
    && (Proper(p.createAcl) && Proper(full.acl) ==>
          (Complete(full, v.dst) <==>
           forall id {:trigger Keeps(p.createAcl, o.acl.deletes, id)} :: Keeps(p.createAcl, o.acl.deletes, id) ==> Lists(full.acl, id)))
    && (p.uses ==> v.entry == Some(if o.push == Fails then Active(Location(p.dstHost, "MOVED"), full.acl)
                                   else Active(Location(p.dstHost, v.dst.value.part), v.dst.value.acl)))
  }

  /**
   A failure before the activation, with working backouts, undoes everything, whatever MUPDATE has been told by
   then.  Without MUPDATE, or when the caller made the reservation, the MOVING flag is never backed out.
   */
  ghost predicate UndoneSpec(p: Plan, o: Outcomes, v0: View, v: View)
    requires v0.src.Some?
  {
    var full := v0.src.value;
    NoneUnheard(o) && !(Filled(full, v0.dst, p.uses, p.prereserved, o) && HandsOver(full, p.uses, p.createAcl, o)) ==>
      && (BackoutsWork(o) && p.uses && !p.prereserved && v0.entry == Some(Active(Location(p.srcHost, full.part), full.acl)) ==>
            v == v0)
      && (!p.uses || p.prereserved ==>
            (v.src == v0.src <==> !(v0.dst == None && o.create == Works && o.flag == Works)))
  }

  /** When only the deletion of the local copy fails, nothing is taken back: the destination has everything, and MUPDATE
      names it. */
  ghost predicate StrandedSpec(p: Plan, o: Outcomes, v0: View, v: View)
    requires v0.src.Some?
  {
    var full := v0.src.value;
    Filled(full, v0.dst, p.uses, p.prereserved, o) && HandsOver(full, p.uses, p.createAcl, o) && o.delete != Works ==>
      && Holds(full, v.dst) && (if o.delete == Fails then AtHome(full, v) else v.src == None)
      && (p.uses ==> PlacedOn(p.dstHost, v.entry))
  }

  /** Every step of a move works, so far as it looks at the outcome: the push to MUPDATE and the DELETEACLs may fail. */
  predicate EveryStepWorks(p: Plan, full: Box, dst: Option<Box>, o: Outcomes) {
    && Filled(full, dst, p.uses, p.prereserved, o) && HandsOver(full, p.uses, p.createAcl, o) && o.delete == Works
  }

  /** One run: the states after steps 2 to 5, after 6 and 7, and after the backouts, with what there was to undo. */
  datatype Run = Run(v0: View, copied: seq<View>, b: Backouts, ready: bool, handed: seq<View>, b': Backouts, ok: bool, last: seq<View>)

  ghost predicate IsRun(p: Plan, o: Outcomes, r: Run) {
    && r.v0.src.Some? && !r.v0.src.value.moving && p.srcHost != p.dstHost
    && r.copied != [] && r.handed != [] && r.last != []
    && CopyOutSpec(p, o, r.v0, r.copied, r.b, r.ready)
    && (if r.ready then HandOverSpec(p, o, r.v0.src.value, r.copied, r.b, r.handed, r.b', r.ok)
        else r.handed == r.copied && r.b' == r.b && !r.ok)
    && (if r.ok then r.last == r.handed else BackOutSpec(p, o, r.v0.src.value, r.handed, r.b', r.last))
  }

  lemma RunHolds(p: Plan, o: Outcomes, r: Run)
    requires IsRun(p, o, r)
    ensures AllHeld(r.v0.src.value, r.last)
  {
    var full := r.v0.src.value;
    assert AtHome(full, Last(r.copied));
    forall i | 0 <= i < |r.last| ensures Held(full, r.last[i]) {
      if i < |r.copied| {
        assert AtHome(full, r.copied[i]);
      } else if i < |r.handed| {
        assert HandingOver(p.dstHost, p.uses, o.activate, Last(r.copied), r.handed[i]);
      } else {
        HeldInBackout(p, o, r, i);
      }
    }
  }

  lemma HeldInBackout(p: Plan, o: Outcomes, r: Run, i: nat)
    requires IsRun(p, o, r) && |r.handed| <= i < |r.last|
    ensures Held(r.v0.src.value, r.last[i])
  {
    var full := r.v0.src.value;
    assert AtHome(full, Last(r.copied));
    assert BackingOut(p.srcHost, full, r.b'.mupdate && p.uses && o.backoutRegistry != Fails,
                      r.b'.remotebox && o.backoutBox != Fails, Last(r.handed), r.last[i]);
  }

  lemma RunMoves(p: Plan, o: Outcomes, r: Run)
    requires IsRun(p, o, r) && r.ok
    ensures MovedSpec(p, o, r.v0.src.value, Last(r.last))
  {
    var full := r.v0.src.value;
    if Proper(p.createAcl) && Proper(full.acl) {
      CopiedRightsIff(p.createAcl, full.acl, o.acl);
    }
  }

  lemma RunFenced(p: Plan, o: Outcomes, r: Run)
    requires IsRun(p, o, r) && r.ok
    ensures AllFenced(p, r.v0.src.value, r.last)
  {
    var full, h := r.v0.src.value, r.copied;
    assert Fenced(p, full, Last(h));
    forall i | 0 <= i < |r.last| ensures Fenced(p, full, r.last[i]) {
      if i < |h| {
        assert Fenced(p, full, h[i]);
      } else {
        assert HandingOver(p.dstHost, p.uses, o.activate, Last(h), r.last[i]);
      }
    }
  }

  lemma RunIsUndone(p: Plan, o: Outcomes, r: Run)
    requires IsRun(p, o, r) && !r.ok
    ensures UndoneSpec(p, o, r.v0, Last(r.last)) && StrandedSpec(p, o, r.v0, Last(r.last))
  {
    assert AtHome(r.v0.src.value, Last(r.copied));
  }

  /** A run succeeds exactly if every step works. */
  lemma RunSucceedsIff(p: Plan, o: Outcomes, r: Run)
    requires IsRun(p, o, r)
    ensures r.ok <==> EveryStepWorks(p, r.v0.src.value, r.v0.dst, o)
  {
  }

  lemma RunConverges(p: Plan, o: Outcomes, r: Run)
    requires IsRun(p, o, r) && p.uses && PlacedOn(p.srcHost, r.v0.entry)
    ensures ConvergeSpec(p, o, r.v0.src.value, r.v0.dst, r.last)
  {
    hide AllConverge, AllConvergeFully, AllServed, AnyStripped, AllWellPlaced;
    var full := r.v0.src.value;
    assert AtHome(full, Last(r.copied));
    if r.ready {
      HandingOverMeans(p, o, full, r.copied, r.b, r.handed, r.b', r.ok);
    }
    if LosesCopy(full, r.v0.dst, p.prereserved, p.createAcl, o) {
      GoneDoesNotConverge(p.srcHost, p.dstHost, full, r.last);
    } else {
      if !r.ok {
        if r.b' == Backouts(false, false, false) {
          assert r.last == r.handed;
        } else {
          BackingOutMeans(p, o, full, r.handed, r.b', r.last);
        }
      }
      WellPlacedConverges(p.srcHost, p.dstHost, full, r.last);
    }
  }

  method RunSteps(t: Transfer, part: string, prereserved: bool, createAcl: Acl, o: Outcomes) returns (ok: bool)
    requires t.Valid() && |t.history| == 1
    requires t.Now().src.Some? && !t.Now().src.value.moving
    requires t.dst.host != t.src.host && '!' !in t.dst.host
    modifies t, t.src`mailboxes, t.dst`mailboxes, t.registry
    ensures t.Valid() && t.Others() == old(t.Others()) && t.history != [] && t.history[0] == old(t.Now())
    ensures MoveSpec(PlanOf(t, part, prereserved, createAcl), o, old(t.Now()), t.history, ok)
    ensures ok <==> EveryStepWorks(PlanOf(t, part, prereserved, createAcl), old(t.Now()).src.value, old(t.Now()).dst, o)
  {
    var full := t.src.mailboxes[t.name];
    ghost var v0, p := t.Now(), PlanOf(t, part, prereserved, createAcl);
    var ready, b := CopyOut(t, part, prereserved, createAcl, o);
    ghost var copied := t.history;
    var b' := b;
    ok := ready;
    if ready {
      ok, b' := HandOver(t, full, b, o, p);
    }
    ghost var handed := t.history;
    if !ok {
      BackOut(t, full, b', o, p);
    }
    ghost var r := Run(v0, copied, b, ready, handed, b', ok, t.history);
    RunHolds(p, o, r);
    RunSucceedsIff(p, o, r);
    if t.registry != null && PlacedOn(p.srcHost, v0.entry) {
      RunConverges(p, o, r);
    }
    if ok {
      RunMoves(p, o, r);
      RunFenced(p, o, r);
    } else {
      RunIsUndone(p, o, r);
    }
  }

  method DoXferSingle(t: Transfer, topart: Option<string>, prereserved: bool, createAcl: Acl, o: Outcomes)
    returns (r: Result)
    requires t.Valid() && |t.history| == 1
    requires t.Now().src.Some? && !t.Now().src.value.moving
    requires '!' !in t.dst.host
    modifies t, t.src`mailboxes, t.dst`mailboxes, t.registry
    ensures t.Valid() && t.Others() == old(t.Others()) && t.history[0] == old(t.Now())
    ensures topart.Some? && !WireStrings.IsAtomText(topart.value) <==> r == BadPartition
    ensures (topart.None? || WireStrings.IsAtomText(topart.value)) && t.dst.host == t.src.host <==> r == BadServer
    ensures r == BadPartition || r == BadServer ==> t.Now() == old(t.Now())
    // The move is reported as done exactly if it was asked for properly and every step that is looked at worked.
    ensures r == Moved <==>
            var full := old(t.Now()).src.value;
            && (topart.None? || WireStrings.IsAtomText(topart.value)) && t.dst.host != t.src.host
            && old(t.Now()).dst == None && o.create == Works && o.flag == Works
            && (t.registry != null && !prereserved ==> o.deactivate == Works)
            && |full.messages| <= o.delivered && o.undump
            && o.acl.listed && (createAcl == [] || (o.acl.answered && |createAcl| <= |o.acl.deletes| + 1))
            && |full.acl| <= |o.acl.sets| && (forall i :: 0 <= i < |full.acl| ==> o.acl.sets[i] == Done)
            && (t.registry != null ==> o.activate == Works) && o.delete == Works
    ensures r == Moved || r == Failed ==>
              MoveSpec(PlanOf(t, PartFor(t, topart), prereserved, createAcl), o, old(t.Now()), t.history, r == Moved)
    ensures r == Moved ==> t.Now().dst.value.part == if topart.Some? then topart.value else t.dst.defaultPart
  {
    if topart.Some? && !WireStrings.IsAtomText(topart.value) {
      return BadPartition;
    }
    if t.dst.host == t.src.host {
      return BadServer;
    }
    var ok := RunSteps(t, PartFor(t, topart), prereserved, createAcl, o);
    r := if ok then Moved else Failed;
  }

  function PartFor(t: Transfer, topart: Option<string>): string {
    if topart.Some? then topart.value else t.dst.defaultPart
  }

  /**
   A move that crashes after its first `crash` effects, and the two resyncs: unless the outcomes lose the copy, one
   server has all the messages and MUPDATE agrees; unless they strip the ACL, that server grants what the source did.
   (And if they do lose or strip it, some crash point does not converge: MoveSpec.)
   */
  method CrashAndRecover(t: Transfer, topart: Option<string>, prereserved: bool, createAcl: Acl, o: Outcomes, crash: nat)
    returns (r: Result)
    requires t.Valid() && |t.history| == 1 && t.registry != null
    requires t.Now().src.Some? && !t.Now().src.value.moving
    requires '!' !in t.dst.host
    requires t.src.Idle() && t.dst.Idle()
    modifies t, t.src, t.dst, t.registry
    ensures r == Moved || r == Failed ==>
              && t.history != []
              && MoveSpec(PlanOf(t, PartFor(t, topart), prereserved, createAcl), o, old(t.Now()), t.history, r == Moved)
              && (crash < |t.history| ==> t.Now() == RecoveredView(t.src.host, t.dst.host, t.history[crash]))
    ensures (r == Moved || r == Failed) && crash < |t.history| && PlacedOn(t.src.host, old(t.Now()).entry) ==>
              CrashSpec(PlanOf(t, PartFor(t, topart), prereserved, createAcl), o, old(t.Now()), t.Now())
  {
    ghost var v0 := t.Now();
    r := DoXferSingle(t, topart, prereserved, createAcl, o);
    if (r == Moved || r == Failed) && crash < |t.history| {
      ResetTo(t, t.history[crash]);
      Recover(t.src, t.dst, t.registry);
      assert t.Now() == RecoveredView(t.src.host, t.dst.host, t.history[crash]);
    }
  }

  ghost predicate CrashSpec(p: Plan, o: Outcomes, v0: View, v: View)
    requires v0.src.Some?
  {
    var full := v0.src.value;
    !LosesCopy(full, v0.dst, p.prereserved, p.createAcl, o) ==>
      && Converged(p.srcHost, p.dstHost, full, v)
      && (!Strips(full, v0.dst, p.prereserved, p.createAcl, o) ==> FullyConverged(p.srcHost, p.dstHost, full, v))
  }

  /** The parties as the crash left them. */
  method ResetTo(t: Transfer, v: View)
    requires t.registry != null && t.src != t.dst
    modifies t.src`mailboxes, t.dst`mailboxes, t.registry
    ensures t.Now() == v
  {
    t.src.mailboxes := if v.src.Some? then t.src.mailboxes[t.name := v.src.value] else t.src.mailboxes - {t.name};
    t.dst.mailboxes := if v.dst.Some? then t.dst.mailboxes[t.name := v.dst.value] else t.dst.mailboxes - {t.name};
    t.registry.entries :=
      if v.entry.Some? then t.registry.entries[t.name := v.entry.value] else t.registry.entries - {t.name};
  }

  /** Both copies are gone after the resyncs once MUPDATE names a server that has deleted its own. */
  lemma GoneLosesBoth(srcHost: string, dstHost: string, v: View)
    requires srcHost != dstHost && Gone(dstHost, v)
    ensures RecoveredView(srcHost, dstHost, v) == View(None, None, None)
  {
  }

  /** A copy of the ACL whose first change works and whose second is refused. */
  function RefusedSecond(): Outcomes {
    Outcomes(Works, Works, Works, 1, true, AclOutcome(true, [Done], true, [Refused]), Works, Works, Works, Fails, Works, Works)
  }

  /** No reply need be lost: a SETACL refused after a DELETEACL worked, and MUPDATE refusing the backout, lose the mailbox. */
  lemma LosesBothCopies(part: string)
    ensures var full := Box(["m"], [Grant("owner", "all")], part, false);
            LosesCopy(full, None, false, [Grant("owner", "all")], RefusedSecond())
  {
    var acl, o := [Grant("owner", "all")], RefusedSecond();
    assert Edits(acl, acl, o.acl)[0] == Edit(Grant("owner", ""), Done);
    assert Pushes(Edits(acl, acl, o.acl)[0]);
    assert !AllSet(acl, o.acl.sets);
  }

  /** Every step works, but a crash after the first deletion leaves the new server in charge with an empty ACL. */
  lemma CrashLeavesBareAcl(srcHost: string, dstHost: string, part: string)
    requires srcHost != dstHost
    ensures var acl := [Grant("owner", "all")];
            var bare := Box(["m"], [], part, false);
            var v := View(Some(Box(["m"], acl, dstHost + "!" + part, true)), Some(bare), Some(Active(Location(dstHost, part), [])));
            RecoveredView(srcHost, dstHost, v) == View(None, Some(bare), Some(Active(Location(dstHost, part), [])))
            && !SameRights(bare.acl, acl)
  {
    assert "owner" in Rights([Grant("owner", "all")]);
  }

  /** A refused DELETEACL goes unnoticed: the move is reported as done and the new copy grants more than the old. */
  lemma RefusedDeletionGoesUnnoticed()
    ensures var createAcl, acl := [Grant("creator", "all")], [Grant("owner", "all")];
            var o := AclOutcome(true, [Refused], true, [Done]);
            AclCopied(createAcl, acl, o) && Rights(EditedAll(createAcl, Edits(createAcl, acl, o))) ==
            map["creator" := "all", "owner" := "all"]
  {
    var createAcl, acl := [Grant("creator", "all")], [Grant("owner", "all")];
    var o := AclOutcome(true, [Refused], true, [Done]);
    var edits := Edits(createAcl, acl, o);
    assert edits == [Edit(Grant("creator", ""), Refused), Edit(acl[0], Done)] by {
      assert acl[1..] == [];
    }
    assert edits[..1] == [edits[0]] && edits[..1][..0] == [];
    assert EditedAll(createAcl, edits[..1]) == createAcl;
    assert createAcl[1..] == [] && Apply([], acl[0]) == [acl[0]];
    assert Apply(createAcl, acl[0]) == [createAcl[0], acl[0]];
    assert [createAcl[0], acl[0]][1..] == [acl[0]] && [acl[0]][1..] == [];
  }
}
