/**
 The order in which the mailbox list and the MUPDATE server enumerate names:
 lexicographic on the bytes of the key.  The only facts the resync needs are that
 it is a strict total order and that both sides list every key once, in that order.
 */
module KeyOrder {

  predicate Before(a: string, b: string) {
    if b == "" then false
    else if a == "" then true
    else a[0] < b[0] || (a[0] == b[0] && Before(a[1..], b[1..]))
  }

  /** The first character that differs decides, the smaller one first; a prefix comes before what continues it. */
  lemma {:induction false} BeforeMeans(p: string, x: char, y: char, s: string, t: string)
    ensures Before(p + [x] + s, p + [y] + t) ==> x <= y
    ensures x < y ==> Before(p + [x] + s, p + [y] + t)
    ensures Before(p, p + [x] + s)
    decreases |p|
  {
    if p == "" {
      assert p + [x] + s == [x] + s && p + [y] + t == [y] + t;
    } else {
      BeforeMeans(p[1..], x, y, s, t);
      assert (p + [x] + s)[1..] == p[1..] + [x] + s && (p + [y] + t)[1..] == p[1..] + [y] + t;
    }
  }

  lemma {:induction false} BeforeIrreflexive(a: string)
    ensures !Before(a, a)
  {
    if a != "" {
      BeforeIrreflexive(a[1..]);
    }
  }

  lemma {:induction false} BeforeTransitive(a: string, b: string, c: string)
    requires Before(a, b) && Before(b, c)
    ensures Before(a, c)
  {
    if a != "" && a[0] == b[0] == c[0] {
      BeforeTransitive(a[1..], b[1..], c[1..]);
    }
  }

  lemma {:induction false} BeforeTotal(a: string, b: string)
    ensures a == b || Before(a, b) || Before(b, a)
  {
    if a != "" && b != "" && a[0] == b[0] {
      BeforeTotal(a[1..], b[1..]);
      assert a == [a[0]] + a[1..] && b == [b[0]] + b[1..];
    }
  }

  ghost predicate Increasing(s: seq<string>) {
    forall i, j :: 0 <= i < j < |s| ==> Before(s[i], s[j])
  }

  /** `s` lists exactly the members of `keys`, each once. */
  ghost predicate Enumerates(s: seq<string>, keys: set<string>) {
    && (forall k :: k in s <==> k in keys)
    && (forall i, j :: 0 <= i < j < |s| ==> s[i] != s[j])
  }

  /** A database scan: every key once, in increasing order. */
  method Scan(keys: set<string>) returns (s: seq<string>)
    ensures Enumerates(s, keys)
    ensures Increasing(s)
  {
    s := [];
    var left := keys;
    while left != {}
      invariant Enumerates(s, keys - left) && left <= keys
      invariant Increasing(s)
      invariant forall k, l :: k in s && l in left ==> Before(k, l)
    {
      var k := Least(left);
      forall l | l in left - {k} ensures Before(k, l) {
        BeforeTotal(k, l);
      }
      BeforeIrreflexive(k);
      s := s + [k];
      left := left - {k};
    }
  }

  method Least(keys: set<string>) returns (k: string)
    requires keys != {}
    ensures k in keys
    ensures forall l :: l in keys ==> !Before(l, k)
  {
    k :| k in keys;
    BeforeIrreflexive(k);
    var left := keys - {k};
    while left != {}
      invariant left <= keys && k in keys
      invariant forall l :: l in keys - left ==> !Before(l, k)
    {
      var l :| l in left;
      if Before(l, k) {
        forall m | m in keys - left ensures !Before(m, l) {
          if Before(m, l) {
            BeforeTransitive(m, l, k);
          }
        }
        BeforeIrreflexive(l);
        k := l;
      }
      left := left - {l};
    }
  }
}
