/**
  Offset/limit pagination as both back ends compute it:
  `skip = (page - 1) * limit`, `pages = Math.ceil(total / limit)`, and the
  database's `skip(offset).limit(limit)` window over an ordered result.
 */
module Paging {

  function Skip(page: nat, limit: nat): (skip: nat)
    requires page >= 1
    ensures page == 1 ==> skip == 0
    ensures skip + limit == page * limit
  {
    (page - 1) * limit
  }

  /** `Math.ceil(total / limit)` for a positive limit. */
  function Pages(total: nat, limit: nat): (pages: nat)
    requires limit >= 1
    ensures pages * limit >= total
    ensures pages >= 1 ==> (pages - 1) * limit < total
    ensures pages == 0 <==> total == 0
  {
    (total + limit - 1) / limit
  }

  /** Every result position lies on exactly one page in `1..Pages(total, limit)`. */
  lemma PageOfPosition(total: nat, limit: nat, pos: nat)
    requires limit >= 1 && pos < total
    ensures var page := pos / limit + 1;
      && 1 <= page <= Pages(total, limit)
      && Skip(page, limit) <= pos < Skip(page, limit) + limit
  {
    var q := pos / limit;
    var pages := Pages(total, limit);
    assert q * limit + pos % limit == pos;
    assert Skip(q + 1, limit) == q * limit;
    if pages <= q {
      MulMonotone(pages, q, limit);
    }
  }

  lemma MulMonotone(a: nat, b: nat, c: nat)
    requires a <= b
    ensures a * c <= b * c
  {
    assert b * c == a * c + (b - a) * c;
  }

  /** A page never starts past the last result unless it is beyond `Pages`. */
  lemma PagesBound(total: nat, limit: nat, page: nat)
    requires limit >= 1 && page >= 1
    ensures Skip(page, limit) < total <==> page <= Pages(total, limit)
  {
    var pages := Pages(total, limit);
    if page <= pages {
      MulMonotone(page - 1, pages - 1, limit);
    } else {
      MulMonotone(pages, page - 1, limit);
    }
  }

  /**
    `r` holds exactly the positions `offset .. offset + limit - 1` of `s`
    that exist, in order: what `skip(offset).limit(limit)` must return.
   */
  predicate WindowOf<T(==)>(r: seq<T>, s: seq<T>, offset: nat, limit: nat) {
    && |r| == (if offset >= |s| then 0 else if |s| - offset < limit then |s| - offset else limit)
    && forall i :: 0 <= i < |r| ==> offset + i < |s| && r[i] == s[offset + i]
  }

  /** `skip(offset).limit(limit)` over an ordered result. */
  function Window<T>(s: seq<T>, offset: nat, limit: nat): (r: seq<T>)
    ensures |r| <= limit
    ensures offset <= |s| ==> |r| == (if |s| - offset < limit then |s| - offset else limit)
    ensures offset > |s| ==> r == []
    ensures |r| == (if offset >= |s| then 0 else if |s| - offset < limit then |s| - offset else limit)
    ensures forall i :: 0 <= i < |r| ==> offset + i < |s| && r[i] == s[offset + i]
  {
    if offset >= |s| then []
    else
      var rest := s[offset..];
      if |rest| <= limit then rest else rest[..limit]
  }

  /** A window from the top that is at least as long as the result is the whole result. */
  lemma WholeWindow<T>(s: seq<T>, limit: nat)
    ensures |s| <= limit ==> Window(s, 0, limit) == s
  {
  }

  /** Every element of a window comes from the underlying result. */
  lemma WindowSubset<T>(s: seq<T>, offset: nat, limit: nat, x: T)
    requires x in Window(s, offset, limit)
    ensures x in s
  {
    var r := Window(s, offset, limit);
    var i :| 0 <= i < |r| && r[i] == x;
    assert s[offset + i] == x;
  }

  /** `WindowOf` pins its sequence down: the window is the only sequence meeting it. */
  lemma WindowOfUnique<T>(r: seq<T>, s: seq<T>, offset: nat, limit: nat)
    requires WindowOf(r, s, offset, limit)
    ensures r == Window(s, offset, limit)
  {
    var w := Window(s, offset, limit);
    assert |r| == |w|;
    forall i | 0 <= i < |r| ensures r[i] == w[i] {
      assert r[i] == s[offset + i];
    }
  }

  /** A property every element of `s` has, every element of a window of `s` has. */
  lemma WindowWithin<T>(s: seq<T>, offset: nat, limit: nat, p: T -> bool)
    requires forall i :: 0 <= i < |s| ==> p(s[i])
    ensures forall i :: 0 <= i < |Window(s, offset, limit)| ==> p(Window(s, offset, limit)[i])
  {
    var w := Window(s, offset, limit);
    forall i | 0 <= i < |w| ensures p(w[i]) {
      assert w[i] == s[offset + i];
    }
  }
}
