/**
 The parts buffer of a staged message: the paths of its copies, one per partition, each ended by a NUL,
 and one more NUL after the last.
 */
module Stage {
  const MAX_MAILBOX_PATH: nat := 4096
  const NUL: char := '\0'

  predicate IsPath(s: string) {
    s != "" && |s| <= MAX_MAILBOX_PATH && NUL !in s
  }

  function Encoded(paths: seq<string>): (r: string)
    ensures |r| > 0
  {
    if paths == [] then [NUL] else paths[0] + [NUL] + Encoded(paths[1..])
  }

  lemma EncodedIs(p: string, q: string)
    ensures Encoded([]) == "\0" && Encoded([p]) == p + "\0" + "\0" && Encoded([p, q]) == p + "\0" + (q + "\0" + "\0")
  {
    assert [p, q][1..] == [q] && [q][1..] == [] && [p][1..] == [];
  }

  predicate Distinct(paths: seq<string>) {
    forall i, j :: 0 <= i < j < |paths| ==> paths[i] != paths[j]
  }

  /** One more path goes over the last NUL. */
  lemma {:induction false} EncodedAppend(paths: seq<string>, path: string)
    ensures var e := Encoded(paths); Encoded(paths + [path]) == e[..|e| - 1] + path + [NUL, NUL]
  {
    var all := paths + [path];
    if paths == [] {
      assert all[1..] == [];
      assert Encoded(all) == path + [NUL] + [NUL];
    } else {
      var e, t := Encoded(paths), Encoded(paths[1..]);
      EncodedAppend(paths[1..], path);
      assert all[1..] == paths[1..] + [path];
      assert e[..|e| - 1] == paths[0] + [NUL] + t[..|t| - 1];
    }
  }

  /** The buffer holds `s` at `p`. */
  predicate HoldsAt(buffer: seq<char>, p: nat, s: string) {
    p + |s| <= |buffer| && forall i :: 0 <= i < |s| ==> buffer[p + i] == s[i]
  }

  lemma HeldSlice(buffer: seq<char>, p: nat, s: string)
    requires HoldsAt(buffer, p, s)
    ensures buffer[p..p + |s|] == s
  {
  }

  lemma HoldsParts(buffer: seq<char>, p: nat, a: string, b: string)
    ensures HoldsAt(buffer, p, a + b) <==> HoldsAt(buffer, p, a) && HoldsAt(buffer, p + |a|, b)
  {
    if HoldsAt(buffer, p, a + b) {
      forall i | 0 <= i < |a| ensures buffer[p + i] == a[i] {
        assert (a + b)[i] == a[i];
      }
      forall i | 0 <= i < |b| ensures buffer[p + |a| + i] == b[i] {
        assert buffer[p + (|a| + i)] == (a + b)[|a| + i];
      }
    }
    if HoldsAt(buffer, p, a) && HoldsAt(buffer, p + |a|, b) {
      forall i | 0 <= i < |a + b| ensures buffer[p + i] == (a + b)[i] {
        assert i >= |a| ==> buffer[p + |a| + (i - |a|)] == b[i - |a|];
      }
    }
  }

  /** Where the first path of a list is, and where the rest of the list begins. */
  lemma FirstPart(buffer: seq<char>, p: nat, paths: seq<string>)
    requires paths != [] && HoldsAt(buffer, p, Encoded(paths))
    ensures HoldsAt(buffer, p, paths[0] + [NUL]) && HoldsAt(buffer, p + |paths[0]| + 1, Encoded(paths[1..]))
  {
    HoldsParts(buffer, p, paths[0] + [NUL], Encoded(paths[1..]));
  }

  /** Behind all paths there is one more NUL. */
  lemma LastPart(buffer: seq<char>, p: nat)
    requires HoldsAt(buffer, p, Encoded([]))
    ensures HoldsAt(buffer, p, "" + [NUL])
  {
  }

  /** A list that grows in place: the new path goes over its last NUL. */
  lemma GrowInPlace(before: seq<char>, after: seq<char>, paths: seq<string>, path: string)
    requires HoldsAt(before, 0, Encoded(paths))
    requires var p := |Encoded(paths)| - 1;
             p <= |after| && before[..p] == after[..p] && HoldsAt(after, p, path + [NUL, NUL])
    ensures HoldsAt(after, 0, Encoded(paths + [path]))
  {
    var e := Encoded(paths);
    var p := |e| - 1;
    EncodedAppend(paths, path);
    assert forall i :: 0 <= i < p ==> after[i] == after[..p][i] == before[..p][i] == e[i];
    HoldsParts(after, 0, e[..p], path + [NUL, NUL]);
    assert e[..p] + path + [NUL, NUL] == e[..p] + (path + [NUL, NUL]);
  }

  /** strlen of the string that starts at `p`. */
  method Strlen(buffer: array<char>, p: nat, ghost s: string) returns (n: nat)
    requires NUL !in s && HoldsAt(buffer[..], p, s + [NUL])
    ensures n == |s|
  {
    ghost var t := s + [NUL];
    assert forall i :: 0 <= i < |t| ==> buffer[..][p + i] == t[i];
    assert forall i :: 0 <= i < |s| ==> t[i] != NUL;
    n := 0;
    while buffer[p + n] != NUL
      invariant n <= |s|
      decreases |s| - n
    {
      assert buffer[p + n] == t[n];
      n := n + 1;
    }
    assert buffer[p + n] == t[n];
  }

  lemma EmptyAtNul(buffer: seq<char>, p: nat, s: string)
    requires NUL !in s && HoldsAt(buffer, p, s + [NUL])
    ensures buffer[p] == NUL <==> s == ""
  {
    assert buffer[p + 0] == (s + [NUL])[0];
  }

  /** strcpy, and one more NUL. */
  method CopyIn(buffer: array<char>, p: nat, s: string)
    requires p + |s| + 1 < buffer.Length
    modifies buffer
    ensures buffer[..p] == old(buffer[..p]) && HoldsAt(buffer[..], p, s + [NUL, NUL])
  {
    for i := 0 to |s|
      invariant forall k :: 0 <= k < i ==> buffer[p + k] == s[k]
      invariant buffer[..p] == old(buffer[..p])
    {
      buffer[p + i] := s[i];
    }
    buffer[p + |s|] := NUL;
    buffer[p + |s| + 1] := NUL;
  }

  /** xrealloc to twice the size: what lies beyond the old end is arbitrary. */
  method Double(buffer: array<char>) returns (r: array<char>)
    ensures fresh(r) && r.Length == 2 * buffer.Length && r[..buffer.Length] == buffer[..]
  {
    r := new char[2 * buffer.Length];
    for i := 0 to buffer.Length
      invariant r[..i] == buffer[..i]
    {
      r[i] := buffer[i];
    }
  }

  class StagedMessage {
    var parts: array<char>
    ghost var paths: seq<string>

    ghost predicate Valid()
      reads this, parts
    {
      && parts.Length >= 5 * (MAX_MAILBOX_PATH + 1)
      && paths != [] && Distinct(paths) && (forall i :: 0 <= i < |paths| ==> IsPath(paths[i]))
      && HoldsAt(parts[..], 0, Encoded(paths))
    }

    /** append_newstage, once the stage file could be created. */
    constructor (stagefile: string)
      requires IsPath(stagefile)
      ensures Valid() && fresh(parts) && paths == [stagefile]
    {
      parts := new char[5 * (MAX_MAILBOX_PATH + 1)](_ => NUL);
      paths := [stagefile];
      new;
      CopyIn(parts, 0, stagefile);
      assert Encoded([stagefile]) == stagefile + [NUL, NUL];
    }

    /** The search for the copy on the mailbox's partition: `p` is where it is, or where the list ends. */
    method Find(stagefile: string) returns (p: nat, found: bool)
      requires Valid() && IsPath(stagefile)
      ensures found <==> stagefile in paths
      ensures found ==> HoldsAt(parts[..], p, stagefile + [NUL])
      ensures !found ==> p == |Encoded(paths)| - 1
    {
      p, found := 0, false;
      ghost var k: nat := 0;
      assert paths[0..] == paths;
      while p < parts.Length
        invariant k <= |paths| && HoldsAt(parts[..], p, Encoded(paths[k..]))
        invariant p + |Encoded(paths[k..])| == |Encoded(paths)|
        invariant stagefile !in paths[..k]
        decreases |paths| - k
      {
        ghost var here := Here(p, k);
        var sl := Strlen(parts, p, here);
        HoldsParts(parts[..], p, here, [NUL]);
        HeldSlice(parts[..], p, here);
        if sl == 0 {
          assert paths[..k] == paths;
          return;
        }
        assert parts[p..p + sl] == parts[..][p..p + sl] == paths[k];
        if parts[p..p + sl] == stagefile {
          found := true;
          return;
        }
        assert paths[..k + 1] == paths[..k] + [paths[k]];
        p, k := p + sl + 1, k + 1;
      }
    }

    /** The string at `p`, where the rest of the list from path `k` on begins. */
    lemma Here(p: nat, k: nat) returns (here: string)
      requires Valid() && k <= |paths| && HoldsAt(parts[..], p, Encoded(paths[k..]))
      ensures here == if k < |paths| then paths[k] else ""
      ensures NUL !in here && (here == "" <==> k == |paths|) && HoldsAt(parts[..], p, here + [NUL])
      ensures k < |paths| ==>
                && HoldsAt(parts[..], p + |here| + 1, Encoded(paths[k + 1..]))
                && |Encoded(paths[k..])| == |here| + 1 + |Encoded(paths[k + 1..])|
    {
      if k < |paths| {
        here := paths[k];
        FirstPart(parts[..], p, paths[k..]);
        assert paths[k..][1..] == paths[k + 1..];
      } else {
        here := "";
        assert paths[k..] == [];
        LastPart(parts[..], p);
      }
    }

    /**
     The staging half of append_fromstage: `copied` and `retried` say whether mailbox_copyfile works at once
     and after mkdir.
     */
    method Partition(stagefile: string, copied: bool, retried: bool) returns (ok: bool, p: nat)
      requires Valid() && IsPath(stagefile)
      modifies this, parts
      ensures Valid() && (parts == old(parts) || fresh(parts))
      ensures ok <==> stagefile in old(paths) || copied || retried
      ensures paths == if ok && stagefile !in old(paths) then old(paths) + [stagefile] else old(paths)
      ensures ok ==> HoldsAt(parts[..], p, stagefile + [NUL])
      // The buffer grows only by doubling once.
      ensures parts.Length in {old(parts.Length), 2 * old(parts.Length)}
      ensures parts.Length != old(parts.Length) <==>
                ok && stagefile !in old(paths) && |Encoded(old(paths))| + |stagefile| + 4 > old(parts.Length)
    {
      var found;
      p, found := Find(stagefile);
      if found {
        return true, p;
      }
      if !copied && !retried {
        return false, p;
      }
      ghost var before := parts[..];
      if p + |stagefile| > parts.Length - 5 {
        parts := Double(parts);
      }
      assert parts[..p] == before[..p];
      CopyIn(parts, p, stagefile);
      GrowInPlace(before, parts[..], paths, stagefile);
      HoldsParts(parts[..], p, stagefile + [NUL], [NUL]);
      assert stagefile + [NUL] + [NUL] == stagefile + [NUL, NUL];
      paths := paths + [stagefile];
      ok := true;
    }

    /** append_removestage: every staged path is unlinked once. */
    method Remove() returns (unlinked: seq<string>)
      requires Valid()
      ensures unlinked == paths
    {
      hide Encoded, Distinct, IsPath;
      var p: nat := 0;
      unlinked := [];
      ghost var k: nat := 0;
      assert paths[0..] == paths && paths[..0] == [];
      AtEnd(p, k);
      while parts[p] != NUL && p < parts.Length
        invariant k <= |paths| && HoldsAt(parts[..], p, Encoded(paths[k..])) && unlinked == paths[..k]
        invariant p < parts.Length && (parts[p] == NUL <==> k == |paths|)
        decreases |paths| - k
      {
        ghost var here := Here(p, k);
        var sl := Strlen(parts, p, here);
        HoldsParts(parts[..], p, here, [NUL]);
        HeldSlice(parts[..], p, here);
        unlinked := unlinked + [parts[p..p + sl]];
        p, k := p + sl + 1, k + 1;
        AtEnd(p, k);
      }
    }

    /** There is a NUL where the list ends, and nowhere else that a path begins. */
    lemma AtEnd(p: nat, k: nat)
      requires Valid() && k <= |paths| && HoldsAt(parts[..], p, Encoded(paths[k..]))
      ensures p < parts.Length && (parts[p] == NUL <==> k == |paths|)
    {
      var here := Here(p, k);
      EmptyAtNul(parts[..], p, here);
    }
  }
}
