/**
 Access control lists as the mailbox list keeps them, and the changes that a move makes to the list of the
 new copy: every identifier is deleted, then every entry of the original is set.
 */
module AccessLists {

  datatype Grant = Grant(id: string, rights: string)

  type Acl = seq<Grant>

  predicate Lists(acl: Acl, id: string) {
    exists i :: 0 <= i < |acl| && acl[i].id == id
  }

  /** No identifier twice, and no entry without rights. */
  predicate Proper(acl: Acl) {
    && (forall i, j :: 0 <= i < j < |acl| ==> acl[i].id != acl[j].id)
    && forall i :: 0 <= i < |acl| ==> acl[i].rights != ""
  }

  /** What a list means. */
  function Rights(acl: Acl): map<string, string> {
    if acl == [] then map[] else Rights(acl[1..])[acl[0].id := acl[0].rights]
  }

  predicate SameRights(a: Acl, b: Acl) {
    Rights(a) == Rights(b)
  }

  /** cyrus_acl_set: change the entry of `g.id` where it is, or add one at the end; no rights remove it. */
  function Apply(acl: Acl, g: Grant): Acl {
    if acl == [] then (if g.rights == "" then [] else [g])
    else if acl[0].id == g.id then (if g.rights == "" then acl[1..] else [g] + acl[1..])
    else [acl[0]] + Apply(acl[1..], g)
  }

  lemma {:induction false} RightsDomain(acl: Acl, id: string)
    ensures id in Rights(acl) <==> Lists(acl, id)
  {
    if acl != [] {
      RightsDomain(acl[1..], id);
      if acl[0].id != id && Lists(acl, id) {
        var i :| 0 <= i < |acl| && acl[i].id == id;
        assert acl[1..][i - 1].id == id;
      }
    }
  }

  lemma {:induction false} ApplyRights(acl: Acl, g: Grant)
    requires Proper(acl)
    ensures Rights(Apply(acl, g)) == if g.rights == "" then Rights(acl) - {g.id} else Rights(acl)[g.id := g.rights]
  {
    if acl != [] {
      var rest := acl[1..];
      ApplyRights(rest, g);
      RightsDomain(rest, acl[0].id);
      assert Apply(acl, g) != [] && acl[0].id != g.id ==> Apply(acl, g)[1..] == Apply(rest, g);
    }
  }

  lemma ApplyLists(acl: Acl, g: Grant, id: string)
    requires Proper(acl)
    ensures Lists(Apply(acl, g), id) <==> if id == g.id then g.rights != "" else Lists(acl, id)
  {
    ApplyRights(acl, g);
    RightsDomain(acl, id);
    RightsDomain(Apply(acl, g), id);
  }

  lemma {:induction false} ApplyProper(acl: Acl, g: Grant)
    requires Proper(acl)
    ensures Proper(Apply(acl, g))
  {
    if acl != [] {
      var rest := acl[1..];
      ApplyProper(rest, g);
      if acl[0].id != g.id {
        assert !Lists(rest, acl[0].id);
        ApplyLists(rest, g, acl[0].id);
        ProperFromTail(acl[0], Apply(rest, g));
      } else if g.rights != "" {
        ProperFromTail(g, rest);
      }
    }
  }

  lemma ProperFromTail(g: Grant, rest: Acl)
    requires Proper(rest) && g.rights != "" && !Lists(rest, g.id)
    ensures Proper([g] + rest)
  {
  }

  lemma ApplyMeans(acl: Acl, g: Grant)
    requires Proper(acl)
    ensures Proper(Apply(acl, g))
    ensures Rights(Apply(acl, g)) == if g.rights == "" then Rights(acl) - {g.id} else Rights(acl)[g.id := g.rights]
  {
    ApplyRights(acl, g);
    ApplyProper(acl, g);
  }

  lemma {:induction false} RightsOneMore(acl: Acl, g: Grant)
    requires Proper(acl) && !Lists(acl, g.id)
    ensures Rights(acl + [g]) == Rights(acl)[g.id := g.rights]
  {
    if acl == [] {
      assert [g][1..] == [];
    } else {
      assert acl[0].id != g.id;
      assert forall i :: 0 <= i < |acl[1..]| ==> acl[1..][i] == acl[i + 1];
      assert (acl + [g])[1..] == acl[1..] + [g];
      RightsOneMore(acl[1..], g);
    }
  }

  /**
   What becomes of one SETACL or DELETEACL on the new server.  It commits the change and then tells MUPDATE:
   all goes well; it is refused without effect; the change is kept but MUPDATE is not told; or both take effect
   and the answer is not OK.
   */
  datatype Change = Done | Refused | Unpushed | Lost

  /** No rights: DELETEACL. */
  datatype Edit = Edit(grant: Grant, change: Change)

  function Edited(acl: Acl, e: Edit): Acl {
    if e.change == Refused then acl else Apply(acl, e.grant)
  }

  predicate Pushes(e: Edit) {
    e.change == Done || e.change == Lost
  }

  function EditedAll(acl: Acl, edits: seq<Edit>): Acl {
    if edits == [] then acl else Edited(EditedAll(acl, edits[..|edits| - 1]), edits[|edits| - 1])
  }

  predicate AnyPushes(edits: seq<Edit>) {
    exists k :: 0 <= k < |edits| && Pushes(edits[k])
  }

  /** trashacl: the identifiers that GETACL listed are deleted; the answers are not looked at. */
  function Deletes(acl: Acl, changes: seq<Change>): seq<Edit> {
    seq(if |acl| <= |changes| then |acl| else |changes|,
        i requires 0 <= i < |acl| && i < |changes| => Edit(Grant(acl[i].id, ""), changes[i]))
  }

  /** dumpacl: the first answer that is not OK ends it. */
  function Sets(acl: Acl, changes: seq<Change>): seq<Edit> {
    if acl == [] || changes == [] then []
    else [Edit(acl[0], changes[0])] + if changes[0] == Done then Sets(acl[1..], changes[1..]) else []
  }

  predicate AllSet(acl: Acl, changes: seq<Change>) {
    |acl| <= |changes| && forall i :: 0 <= i < |acl| ==> changes[i] == Done
  }

  /** The deletions, one by one, as far as the server gets. */
  lemma DeletesAre(acl: Acl, changes: seq<Change>)
    ensures |Deletes(acl, changes)| == if |acl| <= |changes| then |acl| else |changes|
    ensures forall i :: 0 <= i < |Deletes(acl, changes)| ==> Deletes(acl, changes)[i] == Edit(Grant(acl[i].id, ""), changes[i])
  {
  }

  /** The settings, one by one, up to the first that does not work. */
  lemma {:induction false} SetsAre(acl: Acl, changes: seq<Change>)
    ensures var e := Sets(acl, changes);
            && |e| <= |acl| && |e| <= |changes|
            && (forall i :: 0 <= i < |e| ==> e[i] == Edit(acl[i], changes[i]) && (i < |e| - 1 ==> changes[i] == Done))
            && (|e| < |acl| && |e| < |changes| ==> |e| > 0 && changes[|e| - 1] != Done)
  {
    if acl != [] && changes != [] && changes[0] == Done {
      var rest := Sets(acl[1..], changes[1..]);
      SetsAre(acl[1..], changes[1..]);
      assert forall i :: 1 <= i < |Sets(acl, changes)| ==> Sets(acl, changes)[i] == rest[i - 1];
    }
  }

  /** The first `i` entries have been set; `all` is everything that will have been done, `sent` what has. */
  ghost predicate Sending(acl: Acl, changes: seq<Change>, i: nat, sent: seq<Edit>, all: seq<Edit>) {
    && i <= |acl| && i <= |changes| && (forall k :: 0 <= k < i ==> changes[k] == Done)
    && all == sent + Sets(acl[i..], changes[i..])
  }

  lemma SendingOneMore(acl: Acl, changes: seq<Change>, i: nat, sent: seq<Edit>, all: seq<Edit>)
    requires Sending(acl, changes, i, sent, all) && i < |acl| && i < |changes|
    ensures if changes[i] == Done then Sending(acl, changes, i + 1, sent + [Edit(acl[i], changes[i])], all)
            else all == sent + [Edit(acl[i], changes[i])] && !AllSet(acl, changes)
  {
    assert acl[i..][1..] == acl[i + 1..] && changes[i..][1..] == changes[i + 1..];
  }

  lemma SendingEnds(acl: Acl, changes: seq<Change>, i: nat, sent: seq<Edit>, all: seq<Edit>)
    requires Sending(acl, changes, i, sent, all) && (i == |acl| || i == |changes|)
    ensures all == sent && (AllSet(acl, changes) <==> i == |acl|)
  {
    assert Sets(acl[i..], changes[i..]) == [];
  }

  /** What happens while the ACL is copied: whether GETACL works, what becomes of the changes the server gets to,
      and whether the answers to the DELETEACLs arrive. */
  datatype AclOutcome = AclOutcome(listed: bool, deletes: seq<Change>, answered: bool, sets: seq<Change>)

  /** The answer to GETACL is counted with those to the DELETEACLs, so one of these is not waited for. */
  predicate Trashed(acl: Acl, o: AclOutcome) {
    o.listed && (acl == [] || (o.answered && |acl| - 1 <= |o.deletes|))
  }

  predicate AclCopied(acl: Acl, full: Acl, o: AclOutcome) {
    Trashed(acl, o) && AllSet(full, o.sets)
  }

  /** Everything the new server does to its ACL, which is `acl` at first and is to become `full`. */
  function Edits(acl: Acl, full: Acl, o: AclOutcome): seq<Edit> {
    (if o.listed then Deletes(acl, o.deletes) else []) + if Trashed(acl, o) then Sets(full, o.sets) else []
  }

  /** Nothing is set unless the deletions are through: listed, and all but one of their answers there. */
  lemma NothingSet(acl: Acl, full: Acl, o: AclOutcome)
    requires !o.listed || (acl != [] && (!o.answered || |o.deletes| + 1 < |acl|))
    ensures Edits(acl, full, o) == if o.listed then Deletes(acl, o.deletes) else []
  {
  }

  /** Between the first change that MUPDATE hears of and the last one, the ACL is not the original's. */
  ghost predicate Exposed(acl: Acl, full: Acl, edits: seq<Edit>) {
    exists k :: 0 <= k <= |edits| && ExposedAt(acl, full, edits, k)
  }

  ghost predicate ExposedAt(acl: Acl, full: Acl, edits: seq<Edit>, k: nat)
    requires k <= |edits|
  {
    AnyPushes(edits[..k]) && !SameRights(EditedAll(acl, edits[..k]), full)
  }

  lemma AnyPushesOneMore(edits: seq<Edit>, e: Edit)
    ensures AnyPushes(edits + [e]) <==> AnyPushes(edits) || Pushes(e)
  {
    var all := edits + [e];
    if AnyPushes(edits) {
      var k :| 0 <= k < |edits| && Pushes(edits[k]);
      assert Pushes(all[k]);
    }
    if Pushes(e) {
      assert Pushes(all[|edits|]);
    }
    if AnyPushes(all) {
      var k :| 0 <= k < |all| && Pushes(all[k]);
      assert k < |edits| ==> Pushes(edits[k]);
    }
  }

  lemma ExposedOneMore(acl: Acl, full: Acl, edits: seq<Edit>, e: Edit)
    ensures Exposed(acl, full, edits + [e]) <==>
            Exposed(acl, full, edits) || ExposedAt(acl, full, edits + [e], |edits| + 1)
  {
    var all := edits + [e];
    assert forall k :: 0 <= k <= |edits| ==> all[..k] == edits[..k];
    if Exposed(acl, full, edits) {
      var k :| 0 <= k <= |edits| && ExposedAt(acl, full, edits, k);
      assert ExposedAt(acl, full, all, k);
    }
    if Exposed(acl, full, all) {
      var k :| 0 <= k <= |all| && ExposedAt(acl, full, all, k);
      assert k <= |edits| ==> ExposedAt(acl, full, edits, k);
    }
  }

  /** An identifier whose deletion did not take effect. */
  predicate Keeps(acl: Acl, changes: seq<Change>, id: string) {
    exists i :: 0 <= i < |acl| && KeptAt(acl, changes, i, id)
  }

  predicate KeptAt(acl: Acl, changes: seq<Change>, i: nat, id: string)
    requires i < |acl|
  {
    acl[i].id == id && (i < |changes| ==> changes[i] == Refused)
  }

  predicate DeletedBy(acl: Acl, changes: seq<Change>, k: nat, id: string) {
    exists i :: 0 <= i < k && i < |acl| && i < |changes| && acl[i].id == id && changes[i] != Refused
  }

  /** The rights that are left after the first `k` deletions. */
  ghost function Undeleted(acl: Acl, changes: seq<Change>, k: nat): map<string, string> {
    map id | id in Rights(acl) && !DeletedBy(acl, changes, k, id) :: Rights(acl)[id]
  }

  lemma {:induction false} DeletesMean(acl: Acl, changes: seq<Change>, k: nat)
    requires Proper(acl) && k <= |Deletes(acl, changes)|
    ensures Proper(EditedAll(acl, Deletes(acl, changes)[..k]))
    ensures Rights(EditedAll(acl, Deletes(acl, changes)[..k])) == Undeleted(acl, changes, k)
  {
    if k > 0 {
      DeletesMean(acl, changes, k - 1);
      var all := Deletes(acl, changes);
      assert all[..k][..k - 1] == all[..k - 1];
      ApplyMeans(EditedAll(acl, all[..k - 1]), all[k - 1].grant);
      UndeletedOneMore(acl, changes, k);
    }
  }

  lemma UndeletedOneMore(acl: Acl, changes: seq<Change>, k: nat)
    requires 0 < k <= |acl| && k <= |changes|
    ensures Undeleted(acl, changes, k) ==
            if changes[k - 1] == Refused then Undeleted(acl, changes, k - 1)
            else Undeleted(acl, changes, k - 1) - {acl[k - 1].id}
  {
    assert forall id :: DeletedBy(acl, changes, k, id) <==>
                        DeletedBy(acl, changes, k - 1, id) || (acl[k - 1].id == id && changes[k - 1] != Refused);
  }

  lemma KeptIffNotDeleted(acl: Acl, changes: seq<Change>, id: string)
    requires Proper(acl)
    ensures Keeps(acl, changes, id) <==> Lists(acl, id) && !DeletedBy(acl, changes, |Deletes(acl, changes)|, id)
  {
    if Lists(acl, id) {
      var i :| 0 <= i < |acl| && acl[i].id == id;
      assert KeptAt(acl, changes, i, id) || DeletedBy(acl, changes, |Deletes(acl, changes)|, id);
    }
  }

  lemma ProperFront(acl: Acl)
    requires Proper(acl) && acl != []
    ensures acl == acl[..|acl| - 1] + [acl[|acl| - 1]]
    ensures Proper(acl[..|acl| - 1]) && !Lists(acl[..|acl| - 1], acl[|acl| - 1].id) && acl[|acl| - 1].rights != ""
  {
  }

  lemma GivenOneMore(acl: Acl, full: Acl)
    requires full != []
    ensures EditedAll(acl, Given(full)) == Apply(EditedAll(acl, Given(full[..|full| - 1])), full[|full| - 1])
  {
    assert Given(full)[..|full| - 1] == Given(full[..|full| - 1]);
  }

  lemma NoRights()
    ensures Rights([]) == map[]
  {
  }

  lemma {:induction false} GivenMeans(acl: Acl, full: Acl)
    requires Proper(acl) && Proper(full)
    ensures Proper(EditedAll(acl, Given(full)))
    ensures Rights(EditedAll(acl, Given(full))) == Rights(acl) + Rights(full)
  {
    hide Apply, Rights;
    if full == [] {
      assert Given(full) == [];
      NoRights();
    } else {
      ProperFront(full);
      GivenMeans(acl, full[..|full| - 1]);
      GivenOneMore(acl, full);
      ApplyMeans(EditedAll(acl, Given(full[..|full| - 1])), full[|full| - 1]);
      RightsOneMore(full[..|full| - 1], full[|full| - 1]);
    }
  }

  /** All of the original's entries, set without a failure. */
  function Given(acl: Acl): seq<Edit> {
    seq(|acl|, i requires 0 <= i < |acl| => Edit(acl[i], Done))
  }

  lemma {:induction false} SetsAreGiven(acl: Acl, changes: seq<Change>)
    requires AllSet(acl, changes)
    ensures Sets(acl, changes) == Given(acl)
  {
    if acl != [] {
      SetsAreGiven(acl[1..], changes[1..]);
      assert Given(acl) == [Edit(acl[0], Done)] + Given(acl[1..]);
    }
  }

  lemma {:induction false} EditedInTwo(acl: Acl, a: seq<Edit>, b: seq<Edit>)
    ensures EditedAll(acl, a + b) == EditedAll(EditedAll(acl, a), b)
  {
    if b == [] {
      assert a + b == a;
    } else {
      assert (a + b)[..|a + b| - 1] == a + b[..|b| - 1];
      EditedInTwo(acl, a, b[..|b| - 1]);
    }
  }

  /** When the steps that copy the ACL report success, the copy has the original's rights exactly if no deletion of
      an identifier that the original does not have went wrong. */
  lemma CopiedRightsIff(acl: Acl, full: Acl, o: AclOutcome)
    requires Proper(acl) && Proper(full) && AclCopied(acl, full, o)
    ensures SameRights(EditedAll(acl, Edits(acl, full, o)), full) <==>
            forall id {:trigger Keeps(acl, o.deletes, id)} :: Keeps(acl, o.deletes, id) ==> Lists(full, id)
  {
    var d := Deletes(acl, o.deletes);
    var left := EditedAll(acl, d);
    assert d[..|d|] == d;
    DeletesMean(acl, o.deletes, |d|);
    SetsAreGiven(full, o.sets);
    GivenMeans(left, full);
    EditedInTwo(acl, d, Given(full));
    var r := EditedAll(acl, Edits(acl, full, o));
    assert Rights(r) == Rights(left) + Rights(full);
    forall id ensures id in Rights(left) <==> Keeps(acl, o.deletes, id) {
      RightsDomain(acl, id);
      KeptIffNotDeleted(acl, o.deletes, id);
    }
    forall id ensures id in Rights(full) <==> Lists(full, id) {
      RightsDomain(full, id);
    }
    MergeIsIff(Rights(left), Rights(full));
  }

  lemma MergeIsIff(a: map<string, string>, b: map<string, string>)
    ensures a + b == b <==> forall id :: id in a ==> id in b
  {
    if forall id :: id in a ==> id in b {
      assert a + b == b;
    } else {
      var id :| id in a && id !in b;
      assert id in a + b;
    }
  }

  /** After effective deletions nothing is left. */
  lemma NothingLeft(acl: Acl, changes: seq<Change>)
    requires Proper(acl) && |acl| <= |changes| && forall i :: 0 <= i < |acl| ==> changes[i] != Refused
    ensures EditedAll(acl, Deletes(acl, changes)) == []
  {
    var d := Deletes(acl, changes);
    assert d[..|d|] == d;
    DeletesMean(acl, changes, |d|);
    forall id ensures id !in Rights(EditedAll(acl, d)) {
      RightsDomain(acl, id);
      if Lists(acl, id) {
        var i :| 0 <= i < |acl| && acl[i].id == id;
        assert DeletedBy(acl, changes, |d|, id);
      }
    }
    WithoutRights(EditedAll(acl, d));
  }

  lemma WithoutRights(acl: Acl)
    requires forall id :: id !in Rights(acl)
    ensures acl == []
  {
    assert acl != [] ==> acl[0].id in Rights(acl);
  }

  /**
   A copy of a non-empty ACL in which every change takes effect is exposed exactly if MUPDATE hears of a deletion or
   there is more than one entry to set: so nearly every move that works is.
   */
  lemma WorkingCopyExposedIff(acl: Acl, full: Acl, o: AclOutcome)
    requires Proper(acl) && Proper(full) && full != [] && AclCopied(acl, full, o) && |acl| <= |o.deletes|
    requires forall i :: 0 <= i < |acl| ==> o.deletes[i] != Refused
    ensures Exposed(acl, full, Edits(acl, full, o)) <==> AnyPushes(Deletes(acl, o.deletes)) || |full| >= 2
  {
    var d, all := Deletes(acl, o.deletes), Edits(acl, full, o);
    SetsAreGiven(full, o.sets);
    NothingLeft(acl, o.deletes);
    assert all[..|d|] == d;
    if AnyPushes(d) {
      assert full[0].id in Rights(full);
      assert ExposedAt(acl, full, all, |d|);
    } else if |full| >= 2 {
      assert all[..|d| + 1] == d + [Edit(full[0], Done)];
      assert (d + [Edit(full[0], Done)])[..|d|] == d;
      AnyPushesOneMore(d, Edit(full[0], Done));
      FirstIsNotAll(full);
      assert ExposedAt(acl, full, all, |d| + 1);
    } else {
      SetAtOnce(acl, full, d);
    }
  }

  lemma FirstIsNotAll(full: Acl)
    requires Proper(full) && |full| >= 2
    ensures !SameRights(Apply([], full[0]), full)
  {
    assert Lists(full, full[1].id);
    RightsDomain(full, full[1].id);
    RightsDomain([full[0]], full[1].id);
  }

  /** With a single push, of the single entry, MUPDATE never hears of another ACL. */
  lemma SetAtOnce(acl: Acl, full: Acl, d: seq<Edit>)
    requires |full| == 1 && full[0].rights != "" && EditedAll(acl, d) == [] && !AnyPushes(d)
    ensures !Exposed(acl, full, d + Given(full))
  {
    var e := Edit(full[0], Done);
    assert Given(full) == [e];
    ExposedOneMore(acl, full, d, e);
    QuietNotExposed(acl, full, d);
    assert (d + [e])[..|d| + 1] == d + [e];
    EditedInTwo(acl, d, [e]);
    assert [e][..0] == [];
    assert EditedAll(acl, d + [e]) == full;
  }

  lemma QuietNotExposed(acl: Acl, full: Acl, d: seq<Edit>)
    requires !AnyPushes(d)
    ensures !Exposed(acl, full, d)
  {
    forall k | 0 <= k <= |d| ensures !ExposedAt(acl, full, d, k) {
      assert forall i :: 0 <= i < k ==> d[..k][i] == d[i];
    }
  }
}
