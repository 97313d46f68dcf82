/** Values shared by every module of the model. */
module Common {

  /** A nullable column, an optional argument or a Go pointer that may be nil. */
  datatype Option<+T> = None | Some(value: T) {
    function GetOr(fallback: T): T
    {
      if Some? then value else fallback
    }
  }

  /** Lexicographic order on identifiers: the order PostgreSQL gives a UUID column
      and Go's sort.Strings gives its canonical text. */
  predicate TextBefore(a: string, b: string)
  {
    if |b| == 0 then false
    else if |a| == 0 then true
    else a[0] < b[0] || (a[0] == b[0] && TextBefore(a[1..], b[1..]))
  }

  lemma {:induction false} TextBeforeIrreflexive(a: string)
    ensures !TextBefore(a, a)
  {
    if |a| > 0 {
      TextBeforeIrreflexive(a[1..]);
    }
  }

  lemma {:induction false} TextBeforeTransitive(a: string, b: string, c: string)
    requires TextBefore(a, b) && TextBefore(b, c)
    ensures TextBefore(a, c)
  {
    if |a| > 0 && a[0] == b[0] == c[0] {
      TextBeforeTransitive(a[1..], b[1..], c[1..]);
    }
  }

  lemma {:induction false} TextBeforeTotal(a: string, b: string)
    requires a != b
    ensures TextBefore(a, b) || TextBefore(b, a)
  {
    if |a| > 0 && |b| > 0 && a[0] == b[0] {
      assert a == [a[0]] + a[1..] && b == [b[0]] + b[1..];
      TextBeforeTotal(a[1..], b[1..]);
    }
  }

  /** The order on the characters themselves: at the first place where they differ the
      smaller character comes first, and a prefix comes before what extends it. */
  lemma {:induction false} TextBeforeAt(a: string, b: string)
    ensures TextBefore(a, b) <==>
              exists k :: 0 <= k <= |a| && k < |b| && a[..k] == b[..k] && (k == |a| || a[k] < b[k])
  {
    if |b| > 0 && |a| > 0 && a[0] == b[0] {
      TextBeforeAt(a[1..], b[1..]);
      if k :| 0 <= k <= |a[1..]| && k < |b[1..]| && a[1..][..k] == b[1..][..k] && (k == |a[1..]| || a[1..][k] < b[1..][k]) {
        assert a[..k + 1] == [a[0]] + a[1..][..k] && b[..k + 1] == [b[0]] + b[1..][..k];
      }
      if k :| 0 <= k <= |a| && k < |b| && a[..k] == b[..k] && (k == |a| || a[k] < b[k]) {
        assert k > 0;
        assert a[1..][..k - 1] == a[..k][1..] && b[1..][..k - 1] == b[..k][1..];
      }
    } else if |b| > 0 && (|a| == 0 || a[0] < b[0]) {
      assert a[..0] == b[..0];
    } else if |a| > 0 && |b| > 0 {
      forall k | 0 < k <= |a| && k < |b| ensures a[..k] != b[..k] {
        assert a[..k][0] != b[..k][0];
      }
    }
  }

  // ---- white space as strings.TrimSpace has it ------------------------------

  predicate IsUnicodeSpace(c: char)
  {
    || c in {'\t', '\n', '\U{0B}', '\U{0C}', '\r', ' ', '\U{85}', '\U{A0}', '\U{1680}'}
    || '\U{2000}' <= c <= '\U{200A}'
    || c in {'\U{2028}', '\U{2029}', '\U{202F}', '\U{205F}', '\U{3000}'}
  }

  /** By code point. */
  lemma SpaceCodes(c: char)
    ensures IsUnicodeSpace(c) <==>
              || c as int in {9, 10, 11, 12, 13, 32, 133, 160, 5760, 8232, 8233, 8239, 8287, 12288}
              || 8192 <= c as int <= 8202
  {
  }

  predicate Blank(s: string)
  {
    forall i :: 0 <= i < |s| ==> IsUnicodeSpace(s[i])
  }

  // ---- sizes ----------------------------------------------------------------

  lemma SubsetSize<T>(a: set<T>, b: set<T>)
    requires a <= b
    ensures |a| <= |b| && |b - a| == |b| - |a|
    ensures |a| == |b| ==> a == b
  {
    assert b == a + (b - a);
  }

  lemma DisjointSizes<T>(a: set<T>, b: set<T>)
    requires a !! b
    ensures |a + b| == |a| + |b|
  {
  }

  lemma TimesAtLeast(n: nat, q: int)
    requires q >= 1
    ensures n * q >= n
  {
  }
}

/** Ordered pages: what `ORDER BY key LIMIT n` returns for a key that is unique. */
module Ordering {
  import opened Common

  /** A strict total order over the whole type. */
  ghost predicate StrictOrder<T(!new)>(before: (T, T) -> bool)
  {
    && (forall a :: !before(a, a))
    && (forall a, b, c :: before(a, b) && before(b, c) ==> before(a, c))
    && (forall a, b :: a == b || before(a, b) || before(b, a))
  }

  ghost predicate Least<T(!new)>(s: set<T>, before: (T, T) -> bool, x: T)
  {
    x in s && forall y :: y in s && y != x ==> before(x, y)
  }

  lemma {:induction false} LeastExists<T(!new)>(s: set<T>, before: (T, T) -> bool) returns (x: T)
    requires StrictOrder(before) && s != {}
    ensures Least(s, before, x)
    decreases s
  {
    var z :| z in s;
    if s == {z} {
      x := z;
    } else {
      var y := LeastExists(s - {z}, before);
      x := if before(z, y) then z else y;
      forall w | w in s && w != x ensures before(x, w) {
        if w != z && w != y {
          assert w in s - {z} && before(y, w);
        }
      }
    }
  }

  lemma LeastUnique<T(!new)>(s: set<T>, before: (T, T) -> bool, x: T, y: T)
    requires StrictOrder(before) && Least(s, before, x) && Least(s, before, y)
    ensures x == y
  {
    assert x == y || before(x, y);
    assert x == y || before(y, x);
  }

  ghost function LeastOf<T(!new)>(s: set<T>, before: (T, T) -> bool): (x: T)
    requires StrictOrder(before) && s != {}
    ensures Least(s, before, x)
  {
    LeastWitness(s, before);
    var x :| Least(s, before, x);
    x
  }

  lemma LeastWitness<T(!new)>(s: set<T>, before: (T, T) -> bool)
    requires StrictOrder(before) && s != {}
    ensures exists x :: Least(s, before, x)
  {
    var x := LeastExists(s, before);
  }

  /** The first n rows of s in the given order. */
  ghost function FirstN<T(!new)>(s: set<T>, n: nat, before: (T, T) -> bool): (page: seq<T>)
    requires StrictOrder(before)
    ensures forall x :: x in page ==> x in s
    decreases n
  {
    if n == 0 || s == {} then []
    else
      var x := LeastOf(s, before);
      [x] + FirstN(s - {x}, n - 1, before)
  }

  ghost predicate Increasing<T(!new)>(page: seq<T>, before: (T, T) -> bool)
  {
    forall i, j :: 0 <= i < j < |page| ==> before(page[i], page[j])
  }

  ghost predicate IsPage<T(!new)>(page: seq<T>, s: set<T>, n: nat, before: (T, T) -> bool)
  {
    && Increasing(page, before)
    && (forall x :: x in page ==> x in s)
    && |page| <= n
    && (forall y :: y in s && y !in page ==> |page| == n && forall x :: x in page ==> before(x, y))
  }

  /** FirstN is a page: sorted, drawn from s, and nothing it leaves out comes
      before anything it holds; it is short only when it holds everything. */
  lemma {:induction false} FirstNIsPage<T(!new)>(s: set<T>, n: nat, before: (T, T) -> bool)
    requires StrictOrder(before)
    ensures IsPage(FirstN(s, n, before), s, n, before)
    ensures |FirstN(s, n, before)| == if |s| < n then |s| else n
    decreases n
  {
    if n > 0 && s != {} {
      var x := LeastOf(s, before);
      FirstNIsPage(s - {x}, n - 1, before);
      var rest := FirstN(s - {x}, n - 1, before);
      var page := FirstN(s, n, before);
      assert page == [x] + rest;
      forall i, j | 0 <= i < j < |page| ensures before(page[i], page[j]) {
        assert page[j] == rest[j - 1];
        assert page[j] in s - {x};
        if i > 0 { assert page[i] == rest[i - 1]; }
      }
    }
  }

  /** There is only one page of a given size: the database has no choice to make
      when the ordering key is unique. */
  lemma {:induction false} PageUnique<T(!new)>(page: seq<T>, s: set<T>, n: nat, before: (T, T) -> bool)
    requires StrictOrder(before) && IsPage(page, s, n, before)
    ensures page == FirstN(s, n, before)
    decreases n
  {
    if |page| == 0 {
      EmptyPage(s, n, before);
    } else {
      PageTail(page, s, n, before);
      PageUnique(page[1..], s - {page[0]}, n - 1, before);
      PageStartsLeast(page, s, n, before);
      FirstNStarts(s, n, before, page[0]);
    }
  }

  lemma EmptyPage<T(!new)>(s: set<T>, n: nat, before: (T, T) -> bool)
    requires StrictOrder(before) && IsPage([], s, n, before)
    ensures FirstN(s, n, before) == []
  {
    assert n == 0 || forall y :: y !in s;
  }

  lemma FirstNStarts<T(!new)>(s: set<T>, n: nat, before: (T, T) -> bool, x: T)
    requires StrictOrder(before) && n > 0 && Least(s, before, x)
    ensures FirstN(s, n, before) == [x] + FirstN(s - {x}, n - 1, before)
  {
    LeastUnique(s, before, x, LeastOf(s, before));
  }

  lemma PageStartsLeast<T(!new)>(page: seq<T>, s: set<T>, n: nat, before: (T, T) -> bool)
    requires IsPage(page, s, n, before) && |page| > 0
    ensures Least(s, before, page[0])
  {
    var x := page[0];
    forall y | y in s && y != x ensures before(x, y) {
      if y in page {
        var k :| 0 <= k < |page| && page[k] == y;
      }
    }
  }

  lemma PageTail<T(!new)>(page: seq<T>, s: set<T>, n: nat, before: (T, T) -> bool)
    requires StrictOrder(before) && IsPage(page, s, n, before) && |page| > 0
    ensures IsPage(page[1..], s - {page[0]}, n - 1, before)
  {
    var x, rest := page[0], page[1..];
    forall i, j | 0 <= i < j < |rest| ensures before(rest[i], rest[j]) {
      assert rest[i] == page[i + 1] && rest[j] == page[j + 1];
    }
    forall y | y in rest ensures y in s - {x} {
      var k :| 0 <= k < |rest| && rest[k] == y;
      assert page[k + 1] == y && before(page[0], page[k + 1]);
    }
    forall y | y in s - {x} && y !in rest
      ensures |rest| == n - 1 && forall z :: z in rest ==> before(z, y)
    {
      assert page == [x] + rest;
    }
  }

  /** A page of distinct rows holds as many rows as its set has members. */
  lemma {:induction false} IncreasingSize<T(!new)>(page: seq<T>, before: (T, T) -> bool)
    requires StrictOrder(before) && Increasing(page, before)
    ensures |set x | x in page| == |page|
    decreases |page|
  {
    if |page| > 0 {
      var rest := page[1..];
      assert Increasing(rest, before);
      IncreasingSize(rest, before);
      assert page == [page[0]] + rest;
      assert (set x | x in page) == {page[0]} + (set x | x in rest);
      assert page[0] !in rest;
    }
  }

  /** A row with a time and an identifier that breaks ties. */
  datatype Stamp = Stamp(at: int, id: string)

  predicate StampBefore(a: Stamp, b: Stamp)
  {
    a.at < b.at || (a.at == b.at && TextBefore(a.id, b.id))
  }

  lemma StampOrder()
    ensures StrictOrder(StampBefore)
  {
    forall a: Stamp ensures !StampBefore(a, a) {
      TextBeforeIrreflexive(a.id);
    }
    forall a: Stamp, b: Stamp, c: Stamp | StampBefore(a, b) && StampBefore(b, c) ensures StampBefore(a, c) {
      if a.at == b.at == c.at { TextBeforeTransitive(a.id, b.id, c.id); }
    }
    forall a: Stamp, b: Stamp ensures a == b || StampBefore(a, b) || StampBefore(b, a) {
      if a.at == b.at && a.id != b.id { TextBeforeTotal(a.id, b.id); }
    }
  }

  ghost function FirstStamps(stamps: set<Stamp>, limit: nat): seq<Stamp>
  {
    StampOrder();
    FirstN(stamps, limit, StampBefore)
  }

  /** ORDER BY time, id LIMIT n, one row at a time. */
  method TakeFirst(all: set<Stamp>, limit: nat) returns (page: seq<Stamp>)
    ensures page == FirstStamps(all, limit)
  {
    StampOrder();
    page := [];
    var left := all;
    while |page| < limit && left != {}
      invariant all == left + set s | s in page
      invariant |page| <= limit
      invariant Increasing(page, StampBefore)
      invariant forall s, t :: s in page && t in left ==> StampBefore(s, t)
      decreases left
    {
      LeastWitness(left, StampBefore);
      var s :| s in left && forall t :: t in left && t != s ==> StampBefore(s, t);
      page, left := page + [s], left - {s};
    }
    assert IsPage(page, all, limit, StampBefore);
    PageUnique(page, all, limit, StampBefore);
  }

  // ---- pages over a column that need not be unique --------------------------

  /** ORDER BY time LIMIT n where times may repeat: ties fall as the database pleases. */
  ghost predicate OldestFirst(times: map<string, int>, taken: set<string>, limit: nat)
  {
    && taken <= times.Keys
    && |taken| == (if |times| < limit then |times| else limit)
    && (forall g, k :: g in taken && k in times.Keys - taken ==> times[g] <= times[k])
  }

  lemma {:induction false} EarliestExists(times: map<string, int>, s: set<string>)
    requires s != {} && s <= times.Keys
    ensures exists id :: id in s && forall o :: o in s ==> times[id] <= times[o]
    decreases s
  {
    var z :| z in s;
    if s == {z} {
      assert forall o :: o in s ==> o == z;
    } else {
      EarliestExists(times, s - {z});
      var id :| id in s - {z} && forall o :: o in s - {z} ==> times[id] <= times[o];
      var first := if times[z] < times[id] then z else id;
      assert forall o :: o in s ==> o == z || o in s - {z};
      assert forall o :: o in s ==> times[first] <= times[o];
    }
  }

  method TakeOldest(times: map<string, int>, limit: nat) returns (taken: set<string>)
    ensures OldestFirst(times, taken, limit)
  {
    var left := times.Keys;
    assert |left| == |times|;
    taken := {};
    while |taken| < limit && left != {}
      invariant left <= times.Keys && taken == times.Keys - left && |taken| <= limit
      invariant |taken| + |left| == |times|
      invariant forall g, k :: g in taken && k in left ==> times[g] <= times[k]
      decreases left
    {
      EarliestExists(times, left);
      var id :| id in left && forall o :: o in left ==> times[id] <= times[o];
      taken, left := taken + {id}, left - {id};
    }
    assert left == times.Keys - taken;
  }
}
