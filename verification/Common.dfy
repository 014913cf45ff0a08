/** Result types and the "in order, at most once" relation between two logs. */
module Common {

  datatype Option<+T> = None | Some(value: T)

  datatype Result<+T, +E> = Ok(value: T) | Err(error: E)

  function Last<T>(s: seq<T>): T
    requires s != []
  {
    s[|s| - 1]
  }

  function DropLast<T>(s: seq<T>): seq<T>
    requires s != []
  {
    s[..|s| - 1]
  }

  /** `at` names, in increasing order, the positions of `source` that make up `picked`. */
  ghost predicate Picks<T>(at: seq<nat>, picked: seq<T>, source: seq<T>) {
    && |at| == |picked|
    && (forall i, j :: 0 <= i < j < |at| ==> at[i] < at[j])
    && (forall i :: 0 <= i < |at| ==> at[i] < |source| && source[at[i]] == picked[i])
  }

  /** `picked` keeps the order of `source` and uses each of its entries at most once. */
  ghost predicate Subsequence<T>(picked: seq<T>, source: seq<T>) {
    exists at: seq<nat> :: Picks(at, picked, source)
  }

  lemma SubsequenceOfLonger<T>(picked: seq<T>, source: seq<T>, more: seq<T>)
    requires Subsequence(picked, source)
    ensures Subsequence(picked, source + more)
  {
    var at: seq<nat> :| Picks(at, picked, source);
    assert Picks(at, picked, source + more);
  }

  /** A pick from `source` followed by the entry that comes right after `source`. */
  lemma SubsequenceTakesNext<T>(picked: seq<T>, source: seq<T>, next: T)
    requires Subsequence(picked, source)
    ensures Subsequence(picked + [next], source + [next])
  {
    var at: seq<nat> :| Picks(at, picked, source);
    var longer: seq<nat> := at + [|source|];
    assert Picks(longer, picked + [next], source + [next]);
  }

  lemma SubsequenceOfFront<T>(picked: seq<T>, more: seq<T>, source: seq<T>)
    requires Subsequence(picked + more, source)
    ensures Subsequence(picked, source)
  {
    var at: seq<nat> :| Picks(at, picked + more, source);
    assert forall i :: 0 <= i < |picked| ==> (picked + more)[i] == picked[i];
    assert Picks(at[..|picked|], picked, source);
  }

  lemma EmptySubsequence<T>(source: seq<T>)
    ensures Subsequence([], source)
  {
    assert Picks([], [], source);
  }

  /** The position of the first `x` in `s`, or |s| when there is none. */
  function IndexOf<T(==)>(s: seq<T>, x: T): (i: nat)
    ensures i <= |s|
    ensures i < |s| ==> s[i] == x
    ensures forall j :: 0 <= j < i ==> s[j] != x
    ensures i == |s| ==> x !in s
  {
    if s == [] then 0
    else if s[0] == x then 0
    else
      assert s == [s[0]] + s[1..];
      1 + IndexOf(s[1..], x)
  }

  /** The position of the first entry that satisfies `p`, or |s| when none does. */
  function FirstIndex<T>(s: seq<T>, p: T -> bool): (i: nat)
    ensures i <= |s|
    ensures i < |s| ==> p(s[i])
    ensures forall j :: 0 <= j < i ==> !p(s[j])
  {
    if s == [] || p(s[0]) then 0 else 1 + FirstIndex(s[1..], p)
  }
}
