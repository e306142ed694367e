/**
 Lists of nodes as sequences: members that occur once, insertion, removal, and order by a number per node.
 */
module Lists {
  import opened Basics

  predicate NoDup(s: seq<nat>) {
    forall i, j :: 0 <= i < j < |s| ==> s[i] != s[j]
  }

  function Ins(s: seq<nat>, pos: nat, x: nat): seq<nat>
    requires pos <= |s|
  {
    s[..pos] + [x] + s[pos..]
  }

  function Rem(s: seq<nat>, pos: nat): seq<nat>
    requires pos < |s|
  {
    s[..pos] + s[pos + 1..]
  }

  lemma {:induction false} InsMembers(s: seq<nat>, pos: nat, x: nat)
    requires pos <= |s|
    ensures forall y :: y in Ins(s, pos, x) <==> y == x || y in s
  {
    assert s == s[..pos] + s[pos..];
    forall y | y in s
      ensures y in Ins(s, pos, x)
    {
      assert y in s[..pos] || y in s[pos..];
    }
  }

  lemma {:induction false} RemMembers(s: seq<nat>, pos: nat)
    requires pos < |s| && NoDup(s)
    ensures forall y :: y in Rem(s, pos) <==> y in s && y != s[pos]
    ensures NoDup(Rem(s, pos))
  {
    forall y | y in s && y != s[pos]
      ensures y in Rem(s, pos)
    {
      var i :| 0 <= i < |s| && s[i] == y;
      assert if i < pos then Rem(s, pos)[i] == y else Rem(s, pos)[i - 1] == y;
    }
  }

  lemma {:induction false} InsAt(s: seq<nat>, pos: nat, x: nat, i: nat)
    requires pos <= |s| && i <= |s|
    ensures Ins(s, pos, x)[i] == if i < pos then s[i] else if i == pos then x else s[i - 1]
  {
  }

  function Unlink(s: seq<nat>, x: nat): seq<nat> {
    if s == [] then [] else if s[0] == x then s[1..] else [s[0]] + Unlink(s[1..], x)
  }

  lemma {:induction false} UnlinkNone(s: seq<nat>, x: nat)
    requires x !in s
    ensures Unlink(s, x) == s
    decreases |s|
  {
    if s != [] {
      UnlinkNone(s[1..], x);
    }
  }

  lemma {:induction false} UnlinkIs(s: seq<nat>, x: nat) returns (pos: nat)
    requires x in s
    ensures pos < |s| && s[pos] == x && Unlink(s, x) == Rem(s, pos)
    decreases |s|
  {
    if s[0] == x {
      pos := 0;
    } else {
      var k := UnlinkIs(s[1..], x);
      pos := k + 1;
      assert Rem(s, pos) == [s[0]] + Rem(s[1..], k);
    }
  }

  lemma {:induction false} UnlinkWithin(s: seq<nat>, x: nat)
    ensures forall y :: y in Unlink(s, x) ==> y in s
  {
    if x in s {
      var pos := UnlinkIs(s, x);
    } else {
      UnlinkNone(s, x);
    }
  }

  /** Unlinking takes exactly that node out of a list. */
  lemma {:induction false} UnlinkMembers(s: seq<nat>, x: nat)
    requires NoDup(s)
    ensures NoDup(Unlink(s, x)) && forall y :: y in Unlink(s, x) <==> y in s && y != x
  {
    if x in s {
      var pos := UnlinkIs(s, x);
      RemMembers(s, pos);
    } else {
      UnlinkNone(s, x);
    }
  }

  predicate Sorted(s: seq<nat>, d: map<nat, nat>) {
    && (forall x :: x in s ==> x in d && d[x] > 0)
    && (forall i, j :: 0 <= i < j < |s| ==> d[s[i]] <= d[s[j]])
  }

  lemma {:induction false} InsPair(s: seq<nat>, pos: nat, x: nat, d: map<nat, nat>, i: nat, j: nat)
    requires Sorted(s, d) && pos <= |s| && x in d && i < j <= |s|
    requires (pos > 0 ==> d[s[pos - 1]] <= d[x]) && (pos < |s| ==> d[x] <= d[s[pos]])
    ensures var y := if i < pos then s[i] else if i == pos then x else s[i - 1];
            var z := if j < pos then s[j] else if j == pos then x else s[j - 1];
            y in d && z in d && d[y] <= d[z]
  {
  }

  lemma {:induction false} SortedIns(s: seq<nat>, pos: nat, x: nat, d: map<nat, nat>)
    requires Sorted(s, d) && pos <= |s| && x in d && d[x] > 0
    requires (pos > 0 ==> d[s[pos - 1]] <= d[x]) && (pos < |s| ==> d[x] <= d[s[pos]])
    ensures Sorted(Ins(s, pos, x), d)
  {
    InsMembers(s, pos, x);
    var r := Ins(s, pos, x);
    assert |r| == |s| + 1;
    forall i, j | 0 <= i < j < |r|
      ensures d[r[i]] <= d[r[j]]
    {
      InsAt(s, pos, x, i);
      InsAt(s, pos, x, j);
      InsPair(s, pos, x, d, i, j);
    }
  }

  lemma {:induction false} SortedRem(s: seq<nat>, pos: nat, d: map<nat, nat>)
    requires Sorted(s, d) && pos < |s|
    ensures Sorted(Rem(s, pos), d)
  {
    var r := Rem(s, pos);
    forall i, j | 0 <= i < j < |r|
      ensures d[r[i]] <= d[r[j]]
    {
      assert r[i] == s[if i < pos then i else i + 1] && r[j] == s[if j < pos then j else j + 1];
    }
  }

  lemma {:induction false} UnlinkSorted(s: seq<nat>, x: nat, d: map<nat, nat>)
    requires Sorted(s, d)
    ensures Sorted(Unlink(s, x), d)
  {
    if x in s {
      var pos := UnlinkIs(s, x);
      SortedRem(s, pos, d);
    } else {
      UnlinkNone(s, x);
    }
  }

  lemma {:induction false} SamePos(s: seq<nat>, i: nat, j: nat)
    requires NoDup(s) && i < |s| && j < |s| && s[i] == s[j]
    ensures i == j
  {
  }

  lemma {:induction false} AtFront(ord: seq<nat>, pos: nat)
    requires NoDup(ord) && pos < |ord| && ord[pos] == ord[0]
    ensures pos == 0 && Rem(ord, 0) == ord[1..]
  {
  }

  lemma {:induction false} NoDupParts(x: seq<nat>, y: seq<nat>)
    requires NoDup(x + y)
    ensures NoDup(x) && NoDup(y)
  {
    forall i, j | 0 <= i < j < |x|
      ensures x[i] != x[j]
    {
      assert (x + y)[i] == x[i] && (x + y)[j] == x[j];
    }
    forall i, j | 0 <= i < j < |y|
      ensures y[i] != y[j]
    {
      assert (x + y)[|x| + i] == y[i] && (x + y)[|x| + j] == y[j];
    }
  }

  lemma {:induction false} NoDupJoin(x: seq<nat>, y: seq<nat>)
    requires NoDup(x) && NoDup(y) && forall n :: n in y ==> n !in x
    ensures NoDup(x + y)
  {
    forall i, j | 0 <= i < j < |x + y|
      ensures (x + y)[i] != (x + y)[j]
    {
      if i < |x| <= j {
        assert y[j - |x|] in y && x[i] in x;
      }
    }
  }

  lemma {:induction false} UnlinkLength(s: seq<nat>, x: nat)
    requires NoDup(s)
    ensures |Unlink(s, x)| == |s| - One(x in s)
  {
    if x in s {
      var pos := UnlinkIs(s, x);
    } else {
      UnlinkNone(s, x);
    }
  }

  lemma {:induction false} AppendNoDup(s: seq<nat>, x: nat)
    requires NoDup(s) && x !in s
    ensures NoDup(s + [x]) && forall y :: y in s + [x] <==> y in s || y == x
  {
  }
}
