/**
 * Python's list operations that the drawing window relies on, on sequences:
 * indexing with negative indices (`l[i]`, `l.pop(i)`) and `l.insert(i, x)`.
 */
module PyList {
  /** `l[i]` and `l.pop(i)` accept `i` on a list of length `n`; negative indices count from the end. */
  predicate InRange(i: int, n: nat) {
    -(n as int) <= i < n
  }

  /** The position that the Python index `i` designates in a list of length `n`. */
  function Resolve(i: int, n: nat): (k: nat)
    requires InRange(i, n)
    ensures k < n
    ensures k == i || k == n + i
  {
    if i < 0 then n + i else i
  }

  /** The position at which `l.insert(i, x)` puts `x` in a list of length `n`:
      a negative `i` counts from the end, and both ends clamp. */
  function InsertPosition(i: int, n: nat): (p: nat)
    ensures p <= n
    ensures 0 <= i <= n ==> p == i
    ensures -(n as int) <= i < 0 ==> p == n + i
    ensures i < -(n as int) ==> p == 0
    ensures n < i ==> p == n
  {
    if i < 0 then (if n + i < 0 then 0 else n + i)
    else if i > n then n
    else i
  }

  /** `l.insert(i, x)`. */
  function Insert<T>(s: seq<T>, i: int, x: T): (r: seq<T>)
    ensures |r| == |s| + 1
    ensures r[InsertPosition(i, |s|)] == x
    ensures r[..InsertPosition(i, |s|)] == s[..InsertPosition(i, |s|)]
    ensures r[InsertPosition(i, |s|) + 1..] == s[InsertPosition(i, |s|)..]
  {
    var p := InsertPosition(i, |s|);
    s[..p] + [x] + s[p..]
  }

  /** `l.pop(i)`: the removed element and what is left of the list. */
  function Pop<T>(s: seq<T>, i: int): (r: (T, seq<T>))
    requires InRange(i, |s|)
    ensures r.0 == s[Resolve(i, |s|)]
    ensures |r.1| == |s| - 1
    ensures r.1 == s[..Resolve(i, |s|)] + s[Resolve(i, |s|) + 1..]
  {
    var k := Resolve(i, |s|);
    (s[k], s[..k] + s[k + 1..])
  }

  /** `insert` adds exactly one occurrence of the inserted element. */
  lemma InsertAddsOne<T>(s: seq<T>, i: int, x: T)
    ensures multiset(Insert(s, i, x)) == multiset(s) + multiset{x}
  {
    var p := InsertPosition(i, |s|);
    assert s == s[..p] + s[p..];
  }

  /** `pop` removes exactly one occurrence of the element it returns. */
  lemma PopRemovesOne<T>(s: seq<T>, i: int)
    requires InRange(i, |s|)
    ensures multiset(Pop(s, i).1) + multiset{Pop(s, i).0} == multiset(s)
  {
    var k := Resolve(i, |s|);
    assert s == s[..k] + [s[k]] + s[k + 1..];
  }
}
