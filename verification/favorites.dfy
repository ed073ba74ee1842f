/** The favourites toggle of the update-favourite controller: a movie id not
    yet in the user's favourites list is appended, one already in it is
    filtered out, and the reply message says which happened. */
module Favorites {
  import opened Wrappers
  import opened Ids

  /** Which way the toggle went. */
  datatype Msg = Added | Removed

  /** The message sent back to the client. */
  function MsgText(m: Msg): (text: string)
  {
    match m
    case Added => "Added to favorites."
    case Removed => "Removed from favorites."
  }

  /** The list the toggle starts from: a missing (null or undefined)
      favourites entry is replaced by an empty list. */
  function StoredList(favorites: Option<seq<MovieId>>): (r: seq<MovieId>)
    ensures favorites.None? ==> r == []
    ensures favorites.Some? ==> r == favorites.value
  {
    match favorites
    case None => []
    case Some(list) => list
  }

  /** `a` is `b` with some elements deleted: every element of `a` occurs in
      `b`, in the same relative order. */
  ghost predicate IsSubsequence<T>(a: seq<T>, b: seq<T>)
    decreases |b|
  {
    || |a| == 0
    || (&& |b| > 0
        && (|| IsSubsequence(a, b[1..])
            || (a[0] == b[0] && IsSubsequence(a[1..], b[1..]))))
  }

  /** The list with every occurrence of `m` filtered out. */
  function Without(s: seq<MovieId>, m: MovieId): (r: seq<MovieId>)
    ensures m !in r
    ensures multiset(r) == multiset(s)[m := 0]
    ensures IsSubsequence(r, s)
    decreases |s|
  {
    if |s| == 0 then []
    else
      var rest := Without(s[1..], m);
      assert s == [s[0]] + s[1..];
      if s[0] == m then rest
      else
        assert ([s[0]] + rest)[1..] == rest;
        [s[0]] + rest
  }

  /** The toggle. When `m` is absent from the stored list it is appended and
      the message is Added; when present, every occurrence is removed, the
      other ids keep their multiplicities and relative order, and the message
      is Removed. */
  function Toggle(favorites: Option<seq<MovieId>>, m: MovieId): (r: (seq<MovieId>, Msg))
    ensures m !in StoredList(favorites) ==>
      && r.0 == StoredList(favorites) + [m]
      && r.1 == Added
      && MsgText(r.1) == "Added to favorites."
    ensures m in StoredList(favorites) ==>
      && r.1 == Removed
      && MsgText(r.1) == "Removed from favorites."
      && m !in r.0
      && multiset(r.0) == multiset(StoredList(favorites))[m := 0]
      && IsSubsequence(r.0, StoredList(favorites))
  {
    var list := StoredList(favorites);
    if m !in list then (list + [m], Added)
    else (Without(list, m), Removed)
  }

  /** A missing favourites list behaves exactly like an empty one. */
  lemma MissingIsEmpty(m: MovieId)
    ensures Toggle(None, m) == Toggle(Some([]), m) == ([m], Added)
  {
    assert [] + [m] == [m];
  }

  /** The toggle flips the membership of `m` and of nothing else. */
  lemma ToggleMembership(favorites: Option<seq<MovieId>>, m: MovieId)
    ensures m in Toggle(favorites, m).0 <==> m !in StoredList(favorites)
    ensures forall x :: x != m ==> (x in Toggle(favorites, m).0 <==> x in StoredList(favorites))
  {
    var list := StoredList(favorites);
    var r := Toggle(favorites, m).0;
    if m in list {
      forall x | x != m
        ensures x in r <==> x in list
      {
        assert multiset(r)[x] == multiset(list)[x];
      }
    }
  }

  /** Filtering `m` out of a list that gained `m` at its end gives the list
      back, when it did not hold `m` before. */
  lemma {:induction false} WithoutAppended(s: seq<MovieId>, m: MovieId)
    requires m !in s
    ensures Without(s + [m], m) == s
    decreases |s|
  {
    if |s| == 0 {
      assert s + [m] == [m];
    } else {
      assert (s + [m])[1..] == s[1..] + [m];
      WithoutAppended(s[1..], m);
      assert s == [s[0]] + s[1..];
    }
  }

  /** Toggling twice, from a list without `m`, gives the original list back. */
  lemma ToggleTwice(list: seq<MovieId>, m: MovieId)
    requires m !in list
    ensures Toggle(Some(Toggle(Some(list), m).0), m) == (list, Removed)
  {
    WithoutAppended(list, m);
  }
}
