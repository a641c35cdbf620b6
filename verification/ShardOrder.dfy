/**
  The order of shard names, byte by byte, in which a checkpoint index lists its shards.
 */
module ShardOrder {
  import opened Common

  type Name = seq<Byte>

  /** `a` comes strictly before `b`. */
  predicate Precedes(a: Name, b: Name) {
    b != [] && (a == [] || a[0] < b[0] || (a[0] == b[0] && Precedes(a[1..], b[1..])))
  }

  /** Dictionary order: after a common beginning the smaller byte decides, or the end of the shorter name. */
  lemma {:induction false} DictionaryOrder(p: Name, x: Byte, y: Byte, r: Name, s: Name)
    requires x < y
    ensures Precedes(p + ([x] + r), p + ([y] + s)) && Precedes(p, p + ([x] + r))
  {
    var a, b := p + ([x] + r), p + ([y] + s);
    if p == [] {
      assert a[0] == x && b[0] == y;
    } else {
      DictionaryOrder(p[1..], x, y, r, s);
      assert a[1..] == p[1..] + ([x] + r) && b[1..] == p[1..] + ([y] + s);
    }
  }

  predicate Ascending(s: seq<Name>) {
    forall i, j :: 0 <= i < j < |s| ==> Precedes(s[i], s[j])
  }

  function NamesOf(s: seq<Name>): set<Name> {
    set i | 0 <= i < |s| :: s[i]
  }

  lemma {:induction false} PrecedesIsTotal(a: Name, b: Name)
    ensures Precedes(a, b) || Precedes(b, a) || a == b
    ensures !(Precedes(a, b) && Precedes(b, a)) && !Precedes(a, a)
  {
    if a != [] && b != [] && a[0] == b[0] {
      PrecedesIsTotal(a[1..], b[1..]);
      assert a == [a[0]] + a[1..] && b == [b[0]] + b[1..];
    }
    if a != [] {
      NeverPrecedesItself(a);
    }
  }

  lemma {:induction false} NeverPrecedesItself(a: Name)
    ensures !Precedes(a, a)
  {
    if a != [] {
      NeverPrecedesItself(a[1..]);
    }
  }

  lemma {:induction false} PrecedesIsTransitive(a: Name, b: Name, c: Name)
    requires Precedes(a, b) && Precedes(b, c)
    ensures Precedes(a, c)
  {
    if a != [] && a[0] == b[0] == c[0] {
      PrecedesIsTransitive(a[1..], b[1..], c[1..]);
    }
  }

  /** There is one ascending list of a set of names: any other list of them, or one with a name twice, is not. */
  lemma {:induction false} AscendingIsUnique(s: seq<Name>, t: seq<Name>)
    requires Ascending(s) && Ascending(t) && NamesOf(s) == NamesOf(t)
    ensures s == t
  {
    NoNames(s);
    NoNames(t);
    if s != [] && t != [] {
      assert s[0] in NamesOf(t) && t[0] in NamesOf(s);
      PrecedesIsTotal(s[0], t[0]);
      assert s[0] == t[0];
      RestOfNames(s);
      RestOfNames(t);
      AscendingIsUnique(s[1..], t[1..]);
      assert s == [s[0]] + s[1..] && t == [t[0]] + t[1..];
    }
  }

  lemma NoNames(s: seq<Name>)
    ensures NamesOf(s) == {} <==> s == []
  {
    assert s != [] ==> s[0] in NamesOf(s);
  }

  lemma RestOfNames(s: seq<Name>)
    requires s != [] && Ascending(s)
    ensures Ascending(s[1..]) && NamesOf(s[1..]) == NamesOf(s) - {s[0]}
  {
    NeverPrecedesItself(s[0]);
    var rest := s[1..];
    assert forall i :: 0 <= i < |rest| ==> rest[i] == s[i + 1];
    forall n | n in NamesOf(s) - {s[0]}
      ensures n in NamesOf(rest)
    {
      var i :| 0 <= i < |s| && s[i] == n;
      assert rest[i - 1] == n;
    }
    forall i | 0 <= i < |rest|
      ensures rest[i] in NamesOf(s) && rest[i] != s[0]
    {
      assert Precedes(s[0], s[i + 1]);
    }
  }

  /** Walking along an ascending list meets a new name each time. */
  lemma NextName(s: seq<Name>, i: nat)
    requires Ascending(s) && i < |s|
    ensures s[i] !in NamesOf(s[..i]) && NamesOf(s[..i + 1]) == NamesOf(s[..i]) + {s[i]}
    ensures NamesOf(s[..i]) <= NamesOf(s) && s[i] in NamesOf(s) && s[..|s|] == s
  {
    NeverPrecedesItself(s[i]);
    assert forall k :: 0 <= k < i ==> s[..i][k] == s[k] == s[..i + 1][k];
    assert s[..i + 1][i] == s[i];
    assert forall k :: 0 <= k < i ==> s[k] in NamesOf(s) && s[k] in NamesOf(s[..i + 1]);
  }

  /** Puts a name in its place, unless it is there already. */
  method InsertName(s: seq<Name>, name: Name) returns (t: seq<Name>)
    requires Ascending(s)
    ensures Ascending(t) && NamesOf(t) == NamesOf(s) + {name}
    ensures |t| == |s| + if name in NamesOf(s) then 0 else 1
  {
    var i := 0;
    while i < |s| && Precedes(s[i], name)
      invariant i <= |s| && forall k :: 0 <= k < i ==> Precedes(s[k], name)
    {
      i := i + 1;
    }
    forall k | 0 <= k < |s|
      ensures s[k] == name ==> k == i
    {
      NeverPrecedesItself(name);
    }
    if i < |s| && s[i] == name {
      assert name in NamesOf(s);
      return s;
    }
    t := s[..i] + [name] + s[i..];
    InsertedIsAscending(s, i, name);
  }

  lemma InsertedIsAscending(s: seq<Name>, i: nat, name: Name)
    requires Ascending(s) && i <= |s| && (forall k :: 0 <= k < i ==> Precedes(s[k], name))
    requires i < |s| ==> s[i] != name && !Precedes(s[i], name)
    ensures var t := s[..i] + [name] + s[i..];
            Ascending(t) && NamesOf(t) == NamesOf(s) + {name}
  {
    var t := s[..i] + [name] + s[i..];
    assert forall k :: 0 <= k < |t| ==> t[k] == if k < i then s[k] else if k == i then name else s[k - 1];
    forall k | i <= k < |s|
      ensures Precedes(name, s[k])
    {
      PrecedesIsTotal(s[i], name);
      if k > i {
        PrecedesIsTransitive(name, s[i], s[k]);
      }
    }
    forall n | n in NamesOf(s) + {name}
      ensures n in NamesOf(t)
    {
      if n == name {
        assert t[i] == n;
      } else {
        var k :| 0 <= k < |s| && s[k] == n;
        assert t[if k < i then k else k + 1] == n;
      }
    }
  }
}
