/** Shared vocabulary of the model: identifiers, optional values, HTTP replies and the
    first-match / filter searches that stand for document-store queries over collections
    kept in insertion (natural) order. */
module Common {

  type UserId = string
  type ChatId = string
  type MessageId = string
  type SocketId = string

  /** Milliseconds since the epoch, as `Date.now()` returns them. */
  type Time = int

  datatype Option<T> = None | Some(value: T) {
    function GetOr(default: T): T {
      match this
      case Some(v) => v
      case None => default
    }
  }

  /** A JavaScript request field read as a string: present and non-empty is truthy. */
  predicate Truthy(o: Option<string>) {
    o.Some? && o.value != ""
  }

  /** An HTTP reply: a success code with the data it carries, or an error code with the
      message the handler puts in its JSON body. */
  datatype Response<T> = Ok(code: int, data: T) | Err(code: int, message: string) {
    predicate IsError() { Err? }
  }

  /** The message of a schema `ValidationError`: the model name, then each failing path
      with its validator's message, in schema order. */
  function ValidationFailed(model: string, errors: seq<(string, string)>): string {
    model + " validation failed: " + PathErrors(errors)
  }

  function PathErrors(errors: seq<(string, string)>): string {
    if |errors| == 0 then ""
    else if |errors| == 1 then errors[0].0 + ": " + errors[0].1
    else errors[0].0 + ": " + errors[0].1 + ", " + PathErrors(errors[1..])
  }

  /** Position of the first element satisfying `p`: the document a `findOne` in natural
      order returns. */
  function FindFirst<T>(s: seq<T>, p: T -> bool): (r: Option<nat>)
    ensures r.Some? ==> r.value < |s| && p(s[r.value])
    ensures r.Some? ==> forall j :: 0 <= j < r.value ==> !p(s[j])
    ensures r.None? <==> forall j :: 0 <= j < |s| ==> !p(s[j])
  {
    if |s| == 0 then None
    else if p(s[0]) then Some(0)
    else match FindFirst(s[1..], p)
      case None => None
      case Some(i) => Some(i + 1)
  }

  /** The elements satisfying `p`, in their original order. */
  function Filter<T>(s: seq<T>, p: T -> bool): (r: seq<T>)
    ensures |r| <= |s|
    ensures forall i :: 0 <= i < |r| ==> p(r[i]) && r[i] in s
    ensures forall i :: 0 <= i < |s| && p(s[i]) ==> s[i] in r
  {
    if |s| == 0 then []
    else if p(s[0]) then [s[0]] + Filter(s[1..], p)
    else Filter(s[1..], p)
  }

  /** The position in `s` that the `i`-th element of the filtered sequence comes from. */
  ghost function Source<T>(s: seq<T>, p: T -> bool, i: nat): (k: nat)
    requires i < |Filter(s, p)|
    ensures k < |s|
    decreases |s|
  {
    if p(s[0]) then
      if i == 0 then 0 else 1 + Source(s[1..], p, i - 1)
    else 1 + Source(s[1..], p, i)
  }

  /** Later elements of the filtered sequence come from later positions. */
  lemma {:induction false} SourceIncreases<T>(s: seq<T>, p: T -> bool, i: nat, j: nat)
    requires i < j < |Filter(s, p)|
    ensures Source(s, p, i) < Source(s, p, j)
    decreases |s|
  {
    if p(s[0]) {
      if i > 0 {
        SourceIncreases(s[1..], p, i - 1, j - 1);
      }
    } else {
      SourceIncreases(s[1..], p, i, j);
    }
  }

  /** The source position holds the filtered element. */
  lemma {:induction false} SourceHolds<T>(s: seq<T>, p: T -> bool, i: nat)
    requires i < |Filter(s, p)|
    ensures s[Source(s, p, i)] == Filter(s, p)[i]
    decreases |s|
  {
    if p(s[0]) {
      if i > 0 {
        SourceHolds(s[1..], p, i - 1);
      }
    } else {
      SourceHolds(s[1..], p, i);
    }
  }

  /** The elements satisfying `p` keep their relative order: filtering keeps order. */
  lemma FilterKeepsOrder<T>(s: seq<T>, p: T -> bool, i: nat, j: nat)
    requires i < j < |Filter(s, p)|
    ensures exists a, b :: 0 <= a < b < |s| && s[a] == Filter(s, p)[i] && s[b] == Filter(s, p)[j]
  {
    SourceIncreases(s, p, i, j);
    SourceHolds(s, p, i);
    SourceHolds(s, p, j);
    var a, b := Source(s, p, i), Source(s, p, j);
    assert 0 <= a < b < |s| && s[a] == Filter(s, p)[i] && s[b] == Filter(s, p)[j];
  }

  /** Order is kept after a fixed head too: positions past the head come from `s` in order. */
  lemma HeadFilterKeepsOrder<T>(x: T, s: seq<T>, p: T -> bool, i: nat, j: nat)
    requires 1 <= i < j < 1 + |Filter(s, p)|
    ensures exists a, b :: 0 <= a < b < |s| && s[a] == ([x] + Filter(s, p))[i] && s[b] == ([x] + Filter(s, p))[j]
  {
    var f := Filter(s, p);
    var h := [x] + f;
    assert h[i] == f[i - 1] && h[j] == f[j - 1];
    SourceIncreases(s, p, i - 1, j - 1);
    SourceHolds(s, p, i - 1);
    SourceHolds(s, p, j - 1);
    var a, b := Source(s, p, i - 1), Source(s, p, j - 1);
    assert s[a] == h[i] && s[b] == h[j];
  }

  /** Filtering keeps every copy of a kept value and no copy of a dropped one. */
  lemma {:induction false} FilterCounts<T>(s: seq<T>, p: T -> bool, x: T)
    ensures multiset(Filter(s, p))[x] == if p(x) then multiset(s)[x] else 0
    decreases |s|
  {
    if |s| > 0 {
      FilterCounts(s[1..], p, x);
      assert s == [s[0]] + s[1..];
      assert multiset(s) == multiset([s[0]]) + multiset(s[1..]);
      if p(s[0]) {
        assert Filter(s, p) == [s[0]] + Filter(s[1..], p);
        assert multiset(Filter(s, p)) == multiset([s[0]]) + multiset(Filter(s[1..], p));
      }
    }
  }

  /** At most the first `n` elements: a query's `.limit(n)`. */
  function Take<T>(s: seq<T>, n: nat): (r: seq<T>)
    ensures |r| == if |s| <= n then |s| else n
    ensures r <= s
    ensures |s| <= n ==> r == s
  {
    if |s| <= n then s else s[..n]
  }

  /** The sequence in reverse order. */
  function Reverse<T>(s: seq<T>): (r: seq<T>)
    ensures |r| == |s|
    ensures forall i :: 0 <= i < |s| ==> r[i] == s[|s| - 1 - i]
  {
    if |s| == 0 then [] else Reverse(s[1..]) + [s[0]]
  }

  /** The last `n` elements (or all of them, if there are fewer), last first. */
  function Newest<T>(s: seq<T>, n: nat): (r: seq<T>)
    ensures |r| == if |s| <= n then |s| else n
    ensures forall i :: 0 <= i < |r| ==> r[i] == s[|s| - 1 - i]
  {
    Take(Reverse(s), n)
  }

  lemma {:induction false} ReverseReverse<T>(s: seq<T>)
    ensures Reverse(Reverse(s)) == s
  {
    var r := Reverse(Reverse(s));
    assert |r| == |s|;
    forall i | 0 <= i < |s| ensures r[i] == s[i] {
      assert r[i] == Reverse(s)[|s| - 1 - i];
    }
  }

  /** All but the first `k` elements (none when `k` exceeds the length): a query's `.skip(k)`. */
  function Drop<T>(s: seq<T>, k: nat): (r: seq<T>)
    ensures |r| == if k <= |s| then |s| - k else 0
    ensures forall i :: 0 <= i < |r| ==> r[i] == s[k + i]
  {
    if k <= |s| then s[k..] else []
  }

  /** Reading a newest-first listing with `skip` and `limit` and turning the page back to
      oldest-first gives a contiguous run of the oldest-first sequence, ending `k` elements
      before its end. */
  lemma {:induction false} NewestFirstPage<T>(s: seq<T>, k: nat, n: nat)
    ensures var hi := if k <= |s| then |s| - k else 0;
            var lo := if hi >= n then hi - n else 0;
            Reverse(Take(Drop(Reverse(s), k), n)) == s[lo..hi]
  {
    var hi := if k <= |s| then |s| - k else 0;
    var lo := if hi >= n then hi - n else 0;
    var d := Drop(Reverse(s), k);
    assert |d| == hi;
    var t := Take(d, n);
    assert |t| == hi - lo;
    var r := Reverse(t);
    forall i | 0 <= i < hi - lo
      ensures r[i] == s[lo + i]
    {
      var j := |t| - 1 - i;
      assert r[i] == t[j];
      assert t[j] == d[j];
      assert d[j] == Reverse(s)[k + j];
      assert Reverse(s)[k + j] == s[|s| - 1 - (k + j)];
    }
    assert r == s[lo..hi];
  }
}
