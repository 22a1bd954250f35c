/** Breadth-first traversal, independent of what the entries are. A FIFO
    worklist walk takes the front entry, hands it back if `sel` accepts it,
    and appends `exp` of it to the back; read generation by generation, it
    hands back the accepted entries of the first generation, then those of
    the next generation (the expansions of the first, in order), and so on.
    The walk terminates when every expansion is lighter, under a weight
    `wt`, than the entry it expands. */
module Worklist {

  /** The summed weight of a worklist. */
  ghost function Total<T>(wt: T -> nat, s: seq<T>): nat
    decreases |s|
  {
    if s == [] then 0 else wt(s[0]) + Total(wt, s[1..])
  }

  /** Every expansion is lighter than the entry it replaces. */
  ghost predicate Shrinks<T(!new)>(exp: T -> seq<T>, wt: T -> nat) {
    forall e {:trigger exp(e)} :: Total(wt, exp(e)) < wt(e)
  }

  lemma {:induction false} TotalAppend<T>(wt: T -> nat, a: seq<T>, b: seq<T>)
    ensures Total(wt, a + b) == Total(wt, a) + Total(wt, b)
    decreases |a|
  {
    if a == [] {
      assert a + b == b;
    } else {
      assert (a + b)[0] == a[0];
      assert (a + b)[1..] == a[1..] + b;
      TotalAppend(wt, a[1..], b);
    }
  }

  lemma StepLighter<T(!new)>(exp: T -> seq<T>, wt: T -> nat, w: seq<T>)
    requires Shrinks(exp, wt) && w != []
    ensures Total(wt, w[1..] + exp(w[0])) < Total(wt, w)
  {
    TotalAppend(wt, w[1..], exp(w[0]));
  }

  /** The accepted entries of one generation, in order. */
  function Keep<T>(sel: T -> bool, s: seq<T>): seq<T>
    decreases |s|
  {
    if s == [] then [] else (if sel(s[0]) then [s[0]] else []) + Keep(sel, s[1..])
  }

  /** The next generation: the expansions of a generation, one after another. */
  function Next<T>(exp: T -> seq<T>, s: seq<T>): seq<T>
    decreases |s|
  {
    if s == [] then [] else exp(s[0]) + Next(exp, s[1..])
  }

  /** The `k`-th generation below `s`. */
  function Level<T>(exp: T -> seq<T>, s: seq<T>, k: nat): seq<T>
    decreases k
  {
    if k == 0 then s else Level(exp, Next(exp, s), k - 1)
  }

  lemma {:induction false} KeepMembers<T>(sel: T -> bool, s: seq<T>, e: T)
    ensures e in Keep(sel, s) <==> e in s && sel(e)
    decreases |s|
  {
    if s != [] {
      KeepMembers(sel, s[1..], e);
      assert s == [s[0]] + s[1..];
    }
  }

  lemma {:induction false} KeepSnoc<T>(sel: T -> bool, s: seq<T>, x: T)
    ensures Keep(sel, s + [x]) == Keep(sel, s) + (if sel(x) then [x] else [])
    decreases |s|
  {
    var last := if sel(x) then [x] else [];
    if s == [] {
      assert s + [x] == [x];
      assert Keep(sel, [x]) == last + Keep(sel, []);
    } else {
      var first := if sel(s[0]) then [s[0]] else [];
      assert (s + [x])[0] == s[0];
      assert (s + [x])[1..] == s[1..] + [x];
      KeepSnoc(sel, s[1..], x);
      calc {
        Keep(sel, s + [x]);
        first + Keep(sel, s[1..] + [x]);
        first + (Keep(sel, s[1..]) + last);
        (first + Keep(sel, s[1..])) + last;
      }
    }
  }

  lemma {:induction false} NextSnoc<T>(exp: T -> seq<T>, s: seq<T>, x: T)
    ensures Next(exp, s + [x]) == Next(exp, s) + exp(x)
    decreases |s|
  {
    if s == [] {
      assert s + [x] == [x];
      assert Next(exp, [x]) == exp(x) + Next(exp, []);
    } else {
      assert (s + [x])[1..] == s[1..] + [x];
      NextSnoc(exp, s[1..], x);
    }
  }

  /** Taking the front entry of a worklist `front + Next(exp, back)` and
      appending its expansion moves that entry from `front` to `back`. */
  lemma TakeFront<T>(exp: T -> seq<T>, front: seq<T>, back: seq<T>)
    requires front != []
    ensures (front + Next(exp, back))[1..] + exp(front[0])
         == front[1..] + Next(exp, back + [front[0]])
  {
    NextSnoc(exp, back, front[0]);
    assert (front + Next(exp, back))[1..] == front[1..] + Next(exp, back);
  }

  /** Moving the front entry of `front` to the end of `back` keeps `back + front`. */
  lemma MoveFront<T>(back: seq<T>, front: seq<T>)
    requires front != []
    ensures back + front == (back + [front[0]]) + front[1..]
  {
    assert front == [front[0]] + front[1..];
  }

  lemma {:induction false} NextLighter<T(!new)>(exp: T -> seq<T>, wt: T -> nat, s: seq<T>)
    requires Shrinks(exp, wt)
    ensures Total(wt, Next(exp, s)) + |s| <= Total(wt, s)
    decreases |s|
  {
    if s != [] {
      NextLighter(exp, wt, s[1..]);
      TotalAppend(wt, exp(s[0]), Next(exp, s[1..]));
    }
  }

  /** The reference order: the accepted entries of the first generation,
      then of the second, and so on until a generation is empty. */
  ghost function BreadthFirst<T(!new)>(sel: T -> bool, exp: T -> seq<T>, wt: T -> nat, s: seq<T>): seq<T>
    requires Shrinks(exp, wt)
    decreases Total(wt, s)
  {
    if s == [] then []
    else
      NextLighter(exp, wt, s);
      Keep(sel, s) + BreadthFirst(sel, exp, wt, Next(exp, s))
  }

  /** Everything handed back is accepted and lies in some generation. */
  lemma {:induction false} BreadthFirstSound<T(!new)>(sel: T -> bool, exp: T -> seq<T>, wt: T -> nat, s: seq<T>, e: T)
    requires Shrinks(exp, wt) && e in BreadthFirst(sel, exp, wt, s)
    ensures sel(e) && exists k: nat :: e in Level(exp, s, k)
    decreases Total(wt, s)
  {
    NextLighter(exp, wt, s);
    KeepMembers(sel, s, e);
    if e in Keep(sel, s) {
      assert e in Level(exp, s, 0);
    } else {
      BreadthFirstSound(sel, exp, wt, Next(exp, s), e);
      var k: nat :| e in Level(exp, Next(exp, s), k);
      assert Level(exp, s, k + 1) == Level(exp, Next(exp, s), k);
    }
  }

  lemma {:induction false} EmptyLevels<T>(exp: T -> seq<T>, k: nat)
    ensures Level(exp, [], k) == []
    decreases k
  {
    if k > 0 {
      EmptyLevels(exp, k - 1);
    }
  }

  /** Every accepted entry of every generation is handed back. */
  lemma {:induction false} BreadthFirstComplete<T(!new)>(sel: T -> bool, exp: T -> seq<T>, wt: T -> nat, s: seq<T>, k: nat, e: T)
    requires Shrinks(exp, wt) && e in Level(exp, s, k) && sel(e)
    ensures e in BreadthFirst(sel, exp, wt, s)
    decreases k
  {
    if s == [] {
      EmptyLevels(exp, k);
    } else if k == 0 {
      KeepMembers(sel, s, e);
    } else {
      BreadthFirstComplete(sel, exp, wt, Next(exp, s), k - 1, e);
    }
  }
}
