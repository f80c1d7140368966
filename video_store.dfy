/** The favourites list and watch history of stores/video.js. The store updates
    both lists in place (`splice`, `unshift`, `history[idx] = merged`) and then
    truncates the history; `Store` keeps them as fields and its methods are
    specified by the list functions below. */
module VideoStore {
  import opened Lists

  /** `s.indexOf(x)`: the first position of `x`, or -1. */
  function IndexOf<T(==)>(s: seq<T>, x: T): (i: int)
    ensures -1 <= i < |s|
    ensures i == -1 <==> x !in s
    ensures 0 <= i ==> s[i] == x && x !in s[..i]
  {
    FindFirst(s, y => y == x)
  }

  /** No id occurs twice. */
  predicate NoDuplicates<T(==)>(s: seq<T>) {
    forall i, j :: 0 <= i < j < |s| ==> s[i] != s[j]
  }

  /** The favourites after `toggleFavorite(id)`: the first occurrence removed, or `id` put in front.
      Either way the multiset of ids loses or gains exactly one `id`. */
  function Toggled(favorites: seq<int>, id: int): (r: seq<int>)
    ensures id !in favorites ==> r == [id] + favorites
    ensures id in favorites ==> |r| == |favorites| - 1 && multiset(r) == multiset(favorites) - multiset{id}
  {
    var i := IndexOf(favorites, id);
    if i >= 0 then
      assert favorites == favorites[..i] + [favorites[i]] + favorites[i + 1..];
      favorites[..i] + favorites[i + 1..]
    else [id] + favorites
  }

  /** Toggling an absent id inserts it at index 0 and keeps the rest in order. */
  lemma ToggleAbsentPrepends(favorites: seq<int>, id: int)
    requires id !in favorites
    ensures Toggled(favorites, id)[0] == id && Toggled(favorites, id)[1..] == favorites
  {
  }

  /** Toggling a present id removes only its first occurrence and keeps the order of the rest. */
  lemma ToggleRemovesFirstOccurrence(favorites: seq<int>, id: int)
    requires id in favorites
    ensures var i := IndexOf(favorites, id);
      && 0 <= i && favorites[i] == id && id !in favorites[..i]
      && Toggled(favorites, id) == favorites[..i] + favorites[i + 1..]
      && multiset(Toggled(favorites, id)) == multiset(favorites) - multiset{id}
  {
    var i := IndexOf(favorites, id);
    assert favorites == favorites[..i] + [id] + favorites[i + 1..];
  }

  /** Toggling an absent id twice restores the list exactly. */
  lemma ToggleTwiceRestores(favorites: seq<int>, id: int)
    requires id !in favorites
    ensures Toggled(Toggled(favorites, id), id) == favorites
  {
    var once := [id] + favorites;
    assert IndexOf(once, id) == 0;
    assert once[1..] == favorites;
  }

  /** Removing one position of a duplicate-free list leaves it duplicate-free and without that element. */
  lemma RemoveAtKeepsDistinct(s: seq<int>, i: nat)
    requires NoDuplicates(s) && i < |s|
    ensures NoDuplicates(s[..i] + s[i + 1..]) && s[i] !in s[..i] + s[i + 1..]
  {
    var r := s[..i] + s[i + 1..];
    assert forall k :: 0 <= k < |r| ==> r[k] == s[if k < i then k else k + 1];
  }

  /** Putting a new element in front of a duplicate-free list leaves it duplicate-free. */
  lemma PrependKeepsDistinct(s: seq<int>, x: int)
    requires NoDuplicates(s) && x !in s
    ensures NoDuplicates([x] + s)
  {
    var r := [x] + s;
    assert forall k :: 1 <= k < |r| ==> r[k] == s[k - 1];
  }

  /** On a list without duplicates, toggling keeps it duplicate-free and flips membership of `id`. */
  lemma ToggleFlipsMembership(favorites: seq<int>, id: int)
    requires NoDuplicates(favorites)
    ensures NoDuplicates(Toggled(favorites, id))
    ensures id in Toggled(favorites, id) <==> id !in favorites
  {
    var i := IndexOf(favorites, id);
    if i >= 0 {
      RemoveAtKeepsDistinct(favorites, i);
    } else {
      PrependKeepsDistinct(favorites, id);
    }
  }

  /** One watch-history entry: the record the player saves, stamped with `savedAt`. */
  datatype WatchRecord = WatchRecord(id: int, title: string, cover: string, progress: int, savedAt: int)

  /** The history keeps at most this many entries. */
  const HistoryLimit: nat := 200

  /** `history.findIndex(x => x.id === id)`. */
  function FindIndexById(history: seq<WatchRecord>, id: int): (i: int)
    ensures -1 <= i < |history|
    ensures i == -1 <==> forall k :: 0 <= k < |history| ==> history[k].id != id
    ensures 0 <= i ==> history[i].id == id && forall k :: 0 <= k < i ==> history[k].id != id
  {
    FindFirst(history, (x: WatchRecord) => x.id == id)
  }

  /** `s.slice(0, n)`. */
  function Take<T>(s: seq<T>, n: nat): (r: seq<T>)
    ensures |r| == if |s| <= n then |s| else n
    ensures forall k :: 0 <= k < |r| ==> r[k] == s[k]
  {
    if |s| <= n then s else s[..n]
  }

  /** The history after `upsertHistory(rec)` at clock reading `now`: at most `HistoryLimit` entries,
      each the stamped record or an old entry, and the stamped record kept whenever the history was
      within the limit. */
  function Upserted(history: seq<WatchRecord>, rec: WatchRecord, now: int): (r: seq<WatchRecord>)
    ensures |r| <= HistoryLimit
    ensures forall t :: t in r ==> t == rec.(savedAt := now) || t in history
    ensures |history| < HistoryLimit ==> rec.(savedAt := now) in r
  {
    var merged := rec.(savedAt := now);
    var i := FindIndexById(history, rec.id);
    Take(if i >= 0 then history[i := merged] else [merged] + history, HistoryLimit)
  }

  /** The entries whose id is not `id`, in order. */
  function Others(history: seq<WatchRecord>, id: int): seq<WatchRecord>
    decreases |history|
  {
    if history == [] then []
    else if history[0].id == id then Others(history[1..], id)
    else [history[0]] + Others(history[1..], id)
  }

  /** After any upsert the history has at most `HistoryLimit` entries. */
  lemma UpsertBounded(history: seq<WatchRecord>, rec: WatchRecord, now: int)
    ensures |Upserted(history, rec, now)| <= HistoryLimit
  {
  }

  /** An existing id: the entry at the same index becomes the record with its new `savedAt`; the others stay. */
  lemma UpsertExistingInPlace(history: seq<WatchRecord>, rec: WatchRecord, now: int)
    requires FindIndexById(history, rec.id) >= 0
    ensures var i, r := FindIndexById(history, rec.id), Upserted(history, rec, now);
      && |r| == (if |history| <= HistoryLimit then |history| else HistoryLimit)
      && (i < HistoryLimit ==> r[i] == rec.(savedAt := now))
      && forall k :: 0 <= k < |r| && k != i ==> r[k] == history[k]
  {
  }

  /** A new id: the record with its `savedAt` goes to index 0, and the old entries follow. */
  lemma UpsertNewAtFront(history: seq<WatchRecord>, rec: WatchRecord, now: int)
    requires FindIndexById(history, rec.id) < 0
    ensures var r := Upserted(history, rec, now);
      && |r| == (if |history| < HistoryLimit then |history| + 1 else HistoryLimit)
      && r[0] == rec.(savedAt := now)
      && forall k :: 1 <= k < |r| ==> r[k] == history[k - 1]
  {
  }

  /** Filtering a concatenation filters each part. */
  lemma {:induction false} OthersAppend(a: seq<WatchRecord>, b: seq<WatchRecord>, id: int)
    ensures Others(a + b, id) == Others(a, id) + Others(b, id)
    decreases |a|
  {
    if a == [] {
      assert a + b == b;
    } else {
      assert (a + b)[0] == a[0];
      assert (a + b)[1..] == a[1..] + b;
      OthersAppend(a[1..], b, id);
    }
  }

  /** Filtering a prefix gives a prefix of the filtered list. */
  lemma OthersOfPrefix(s: seq<WatchRecord>, n: nat, id: int)
    requires n <= |s|
    ensures IsPrefix(Others(s[..n], id), Others(s, id))
  {
    assert s == s[..n] + s[n..];
    OthersAppend(s[..n], s[n..], id);
  }

  /** Replacing an entry of `id` by another entry of `id` leaves the other entries alone. */
  lemma OthersReplaceSameId(s: seq<WatchRecord>, i: nat, x: WatchRecord, id: int)
    requires i < |s| && s[i].id == id && x.id == id
    ensures Others(s[i := x], id) == Others(s, id)
  {
    assert s == s[..i] + [s[i]] + s[i + 1..];
    assert s[i := x] == s[..i] + [x] + s[i + 1..];
    OthersAppend(s[..i] + [s[i]], s[i + 1..], id);
    OthersAppend(s[..i], [s[i]], id);
    OthersAppend(s[..i] + [x], s[i + 1..], id);
    OthersAppend(s[..i], [x], id);
  }

  /** Entries with other ids keep their relative order: they are a prefix of the old ones, in order. */
  lemma UpsertKeepsOthersInOrder(history: seq<WatchRecord>, rec: WatchRecord, now: int)
    ensures IsPrefix(Others(Upserted(history, rec, now), rec.id), Others(history, rec.id))
  {
    var merged := rec.(savedAt := now);
    var i := FindIndexById(history, rec.id);
    var whole := if i >= 0 then history[i := merged] else [merged] + history;
    if i >= 0 {
      OthersReplaceSameId(history, i, merged, rec.id);
    } else {
      assert whole[1..] == history;
    }
    assert Others(whole, rec.id) == Others(history, rec.id);
    if |whole| <= HistoryLimit {
      assert Upserted(history, rec, now) == whole[..|whole|];
    }
    OthersOfPrefix(whole, if |whole| <= HistoryLimit then |whole| else HistoryLimit, rec.id);
  }

  /** The store's two lists. `load()` reads them from local storage; the constructor takes what was read. */
  class Store {
    var favorites: seq<int>
    var history: seq<WatchRecord>

    constructor (storedFavorites: seq<int>, storedHistory: seq<WatchRecord>)
      ensures favorites == storedFavorites && history == storedHistory
    {
      favorites := storedFavorites;
      history := storedHistory;
    }

    /** `isFavorited(id)`: agrees with the `indexOf` test `toggleFavorite` makes. */
    function IsFavorited(id: int): (b: bool)
      reads this
      ensures b <==> IndexOf(favorites, id) >= 0
    {
      id in favorites
    }

    /** `toggleFavorite(id)`. */
    method ToggleFavorite(id: int)
      modifies this
      ensures favorites == Toggled(old(favorites), id)
      ensures NoDuplicates(old(favorites)) ==> NoDuplicates(favorites) && (IsFavorited(id) <==> !old(IsFavorited(id)))
      ensures history == old(history)
    {
      if NoDuplicates(favorites) { ToggleFlipsMembership(favorites, id); }
      var idx := IndexOf(favorites, id);
      if idx >= 0 {
        favorites := favorites[..idx] + favorites[idx + 1..];
      } else {
        favorites := [id] + favorites;
      }
    }

    /** `upsertHistory(rec)` at clock reading `now`. */
    method UpsertHistory(rec: WatchRecord, now: int)
      modifies this
      ensures history == Upserted(old(history), rec, now)
      ensures |history| <= HistoryLimit
      ensures favorites == old(favorites)
    {
      var idx := FindIndexById(history, rec.id);
      var merged := rec.(savedAt := now);
      if idx >= 0 {
        history := history[idx := merged];
      } else {
        history := [merged] + history;
      }
      history := Take(history, HistoryLimit);
    }
  }
}
