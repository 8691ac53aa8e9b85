/** The master's slave registry `discovered_slaves`: a vector of device ids
    kept sorted by push_back followed by std::sort, and shrunk with the
    std::remove / erase idiom (RF24-MasterForControlUI/src/main.cpp). */
module Registry {
  import opened Text

  /** Strictly ascending: sorted, with no id twice. */
  predicate Ascending(s: seq<Byte>) {
    forall i, j :: 0 <= i < j < |s| ==> s[i] < s[j]
  }

  /** The head of an ascending sequence is below everything after it. */
  lemma AscendingTail(s: seq<Byte>)
    requires Ascending(s) && s != []
    ensures Ascending(s[1..])
    ensures forall y :: y in s[1..] ==> s[0] < y
  {
    forall y | y in s[1..] ensures s[0] < y {
      var j :| 0 <= j < |s[1..]| && s[1..][j] == y;
      assert s[j + 1] == y;
    }
  }

  lemma AscendingCons(h: Byte, t: seq<Byte>)
    requires Ascending(t)
    requires forall y :: y in t ==> h < y
    ensures Ascending([h] + t)
  {
    var s := [h] + t;
    forall i, j | 0 <= i < j < |s| ensures s[i] < s[j] {
      assert s[j] == t[j - 1];
      if i == 0 {
        assert t[j - 1] in t;
      } else {
        assert s[i] == t[i - 1];
      }
    }
  }

  /** push_back(x) then std::sort on an already sorted vector: x goes
      before the first element that is not smaller. */
  function Insert(s: seq<Byte>, x: Byte): (t: seq<Byte>)
    ensures forall y :: y in t <==> y in s || y == x
    ensures |t| == |s| + 1
    ensures Ascending(s) && x !in s ==> Ascending(t)
    decreases |s|
  {
    if s == [] then [x]
    else if x <= s[0] then
      if Ascending(s) && x !in s then
        AscendingTail(s);
        AscendingCons(x, s);
        [x] + s
      else [x] + s
    else
      var rest := Insert(s[1..], x);
      if Ascending(s) && x !in s then
        AscendingTail(s);
        AscendingCons(s[0], rest);
        [s[0]] + rest
      else [s[0]] + rest
  }

  /** std::remove(begin, end, x) followed by erase: every x is dropped, the
      other ids keep their order. */
  function Remove(s: seq<Byte>, x: Byte): (t: seq<Byte>)
    ensures forall y :: y in t <==> y in s && y != x
    ensures x !in s ==> t == s
    ensures Ascending(s) ==> Ascending(t)
    ensures Ascending(s) && x in s ==> |t| == |s| - 1
    decreases |s|
  {
    if s == [] then []
    else
      var rest := Remove(s[1..], x);
      if Ascending(s) then
        AscendingTail(s);
        if s[0] == x then rest
        else
          AscendingCons(s[0], rest);
          [s[0]] + rest
      else if s[0] == x then rest
      else [s[0]] + rest
  }

  lemma HeadIsLeast(s: seq<Byte>, y: Byte)
    requires Ascending(s) && y in s
    ensures s[0] <= y
  {
    var j :| 0 <= j < |s| && s[j] == y;
    assert j == 0 || s[0] < s[j];
  }

  lemma HeadIn(s: seq<Byte>)
    requires s != []
    ensures s[0] in s
  {
  }

  /** Two strictly ascending sequences with the same elements are equal, so
      a sorted vector is determined by the set of ids it holds. */
  lemma {:induction false} AscendingUnique(a: seq<Byte>, b: seq<Byte>)
    requires Ascending(a) && Ascending(b)
    requires forall y :: y in a <==> y in b
    ensures a == b
    decreases |a|
  {
    if a == [] && b == [] {
    } else if a == [] {
      HeadIn(b);
      assert false;
    } else if b == [] {
      HeadIn(a);
      assert false;
    } else {
      AscendingTail(a);
      AscendingTail(b);
      HeadIn(a);
      HeadIn(b);
      HeadIsLeast(a, b[0]);
      HeadIsLeast(b, a[0]);
      assert a == [a[0]] + a[1..] && b == [b[0]] + b[1..];
      forall y ensures y in a[1..] <==> y in b[1..] {
        if y in a[1..] {
          assert y in a && a[0] < y;
          assert y in b && y != b[0];
        }
        if y in b[1..] {
          assert y in b && b[0] < y;
          assert y in a && y != a[0];
        }
      }
      AscendingUnique(a[1..], b[1..]);
      assert a == [a[0]] + a[1..] && b == [b[0]] + b[1..];
    }
  }

  /** Insert is the sorted vector holding the old ids and x: what std::sort
      leaves after push_back. */
  lemma InsertIsSort(s: seq<Byte>, x: Byte, sorted: seq<Byte>)
    requires Ascending(s) && x !in s
    requires Ascending(sorted) && forall y :: y in sorted <==> y in s + [x]
    ensures Insert(s, x) == sorted
  {
    AscendingUnique(sorted, Insert(s, x));
  }

  /** Removing an id that was never inserted undoes the insert. */
  lemma RemoveInsert(s: seq<Byte>, x: Byte)
    requires Ascending(s) && x !in s
    ensures Remove(Insert(s, x), x) == s
  {
    AscendingUnique(Remove(Insert(s, x), x), s);
  }
}
