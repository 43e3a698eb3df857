/** `get_photo`: the photo column of a product, built from the main-picture URLs of
    its pictures (in the order the product response lists them). */
module Photos {
  import opened Values
  import opened Text

  /** PHOTO_INDEX: the positions of the pictures added after the first one. */
  const PHOTO_INDEX: seq<nat> := [0, 3, 5, 7, 8, 9]

  const SEPARATOR: string := "; "

  /** The URLs at the positions below `n` that `index` lists, by increasing position. */
  function Preferred(urls: seq<string>, index: seq<nat>, n: nat): (r: seq<string>)
    requires n <= |urls|
    ensures |r| <= n
  {
    if n == 0 then []
    else Preferred(urls, index, n - 1) + (if n - 1 in index then [urls[n - 1]] else [])
  }

  /** The list `get_photo` joins: the URL at position 2, then the preferred URLs. */
  function PhotoList(urls: seq<string>, index: seq<nat>): seq<string>
    requires |urls| >= 3
  {
    [urls[2]] + Preferred(urls, index, |urls|)
  }

  /** What `get_photo` returns: nothing for no pictures; an IndexError for one or two
      pictures, whose position 2 does not exist; otherwise the joined list, which starts
      with the URL at position 2. */
  function Photo(urls: seq<string>, index: seq<nat>): (r: Outcome<Option<string>>)
    ensures r == Value(None) <==> urls == []
    ensures r.Raised? <==> 0 < |urls| < 3
    ensures r.Raised? ==> r.error == IndexError
    ensures |urls| >= 3 ==> r.Value? && r.value.Some? && urls[2] <= r.value.value
  {
    if urls == [] then Value(None)
    else if |urls| < 3 then Raised(IndexError)
    else Value(Some(Join(PhotoList(urls, index), SEPARATOR)))
  }

  /** The seed is the URL at position 2: `get_photo`'s fallback to position 0 sits behind
      a length test that is always true once the list is non-empty, so it never runs. */
  method GetPhoto(urls: seq<string>, index: seq<nat>) returns (r: Outcome<Option<string>>)
    ensures r == Photo(urls, index)
  {
    if urls == [] {
      return Value(None);
    }
    if |urls| < 3 {
      return Raised(IndexError);
    }
    var res := [urls[2]];
    for i := 0 to |urls|
      invariant res == [urls[2]] + Preferred(urls, index, i)
    {
      if i in index {
        res := res + [urls[i]];
      }
    }
    return Value(Some(Join(res, SEPARATOR)));
  }

  /** The positions below `n` that `index` lists. */
  function Listed(index: seq<nat>, n: nat): set<nat> {
    set i: nat | i < n && i in index
  }

  /** One URL per listed position below `n`. */
  lemma {:induction false} PreferredCount(urls: seq<string>, index: seq<nat>, n: nat)
    requires n <= |urls|
    ensures |Preferred(urls, index, n)| == |Listed(index, n)|
  {
    if n == 0 {
      assert Listed(index, 0) == {};
    } else {
      PreferredCount(urls, index, n - 1);
      var before := Listed(index, n - 1);
      assert n - 1 !in before;
      if n - 1 in index {
        assert Listed(index, n) == before + {n - 1};
      } else {
        assert Listed(index, n) == before;
      }
    }
  }

  /** The joined list has one entry more than there are listed positions below the
      number of pictures. */
  lemma PhotoCount(urls: seq<string>, index: seq<nat>)
    requires |urls| >= 3
    ensures |PhotoList(urls, index)| == 1 + |Listed(index, |urls|)|
  {
    PreferredCount(urls, index, |urls|);
  }

  predicate Ascending(index: seq<nat>) {
    forall j, k :: 0 <= j < k < |index| ==> index[j] < index[k]
  }

  /** The entries of `index` below `n`, in the order `index` lists them. */
  function Below(index: seq<nat>, n: nat): (r: seq<nat>)
    ensures forall k :: 0 <= k < |r| ==> r[k] < n && r[k] in index
  {
    if index == [] then []
    else (if index[0] < n then [index[0]] else []) + Below(index[1..], n)
  }

  lemma {:induction false} BelowNext(index: seq<nat>, n: nat)
    requires Ascending(index)
    ensures Below(index, n + 1) == Below(index, n) + (if n in index then [n] else [])
  {
    if index != [] {
      var x, rest := index[0], index[1..];
      assert Ascending(rest);
      BelowNext(rest, n);
      assert Below(index, n + 1) == (if x < n + 1 then [x] else []) + Below(rest, n + 1);
      assert Below(index, n) == (if x < n then [x] else []) + Below(rest, n);
      assert n in index <==> x == n || n in rest;
      if x == n {
        assert forall y :: y in rest ==> n < y;
      }
    }
  }

  /** For an ascending index such as PHOTO_INDEX, the preferred URLs are those at the
      entries of the index below `n`, in the index's order. */
  lemma {:induction false} PreferredFollowsIndex(urls: seq<string>, index: seq<nat>, n: nat)
    requires Ascending(index) && n <= |urls|
    ensures var b := Below(index, n);
      |Preferred(urls, index, n)| == |b|
      && forall k :: 0 <= k < |b| ==> Preferred(urls, index, n)[k] == urls[b[k]]
  {
    var b := Below(index, n);
    if n == 0 {
      BelowNone(index, 0);
    } else {
      PreferredFollowsIndex(urls, index, n - 1);
      BelowNext(index, n - 1);
      var p, b0 := Preferred(urls, index, n - 1), Below(index, n - 1);
      var extra := n - 1 in index;
      assert Preferred(urls, index, n) == p + (if extra then [urls[n - 1]] else []);
      assert b == b0 + (if extra then [n - 1] else []);
      AppendMatches(urls, p, b0, if extra then [urls[n - 1]] else [], if extra then [n - 1] else []);
    }
  }

  /** URLs taken at matching positions stay matched when two such runs are joined. */
  lemma AppendMatches(urls: seq<string>, p: seq<string>, b: seq<nat>, p1: seq<string>, b1: seq<nat>)
    requires |p| == |b| && forall k :: 0 <= k < |b| ==> b[k] < |urls| && p[k] == urls[b[k]]
    requires |p1| == |b1| && forall k :: 0 <= k < |b1| ==> b1[k] < |urls| && p1[k] == urls[b1[k]]
    ensures |p + p1| == |b + b1|
    ensures forall k :: 0 <= k < |b + b1| ==> (b + b1)[k] < |urls| && (p + p1)[k] == urls[(b + b1)[k]]
  {
  }

  /** What the photo column of a product with at least three pictures is made of: the
      URLs of a list, joined with "; ", whose first entry is the URL at position 2 and
      whose other entries are the URLs at the positions of PHOTO_INDEX that exist, in
      increasing order. */
  lemma PhotoListShape(urls: seq<string>)
    requires |urls| >= 3
    ensures var b := Below(PHOTO_INDEX, |urls|);
      var l := PhotoList(urls, PHOTO_INDEX);
      Photo(urls, PHOTO_INDEX) == Value(Some(Join(l, SEPARATOR)))
      && |l| == 1 + |b| && l[0] == urls[2]
      && (forall k :: 0 <= k < |b| ==> l[k + 1] == urls[b[k]])
      && (forall j, k :: 0 <= j < k < |b| ==> b[j] < b[k])
  {
    assert Ascending(PHOTO_INDEX);
    PreferredFollowsIndex(urls, PHOTO_INDEX, |urls|);
    BelowAscending(PHOTO_INDEX, |urls|);
  }

  lemma {:induction false} BelowNone(index: seq<nat>, n: nat)
    requires forall k :: 0 <= k < |index| ==> n <= index[k]
    ensures Below(index, n) == []
  {
    if index != [] {
      BelowNone(index[1..], n);
    }
  }

  lemma {:induction false} BelowAscending(index: seq<nat>, n: nat)
    requires Ascending(index)
    ensures Ascending(Below(index, n))
  {
    if index != [] {
      BelowAscending(index[1..], n);
      var b := Below(index[1..], n);
      forall k | 0 <= k < |b| ensures index[0] < b[k] {
        var j :| 0 <= j < |index[1..]| && index[1..][j] == b[k];
      }
    }
  }
}
