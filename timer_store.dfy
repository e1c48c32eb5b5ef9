/** The `reminders` collection of the durable store, as an abstract map from a row's `_id`
    to its fields, with the filters the reminder cog queries and deletes by. */
module TimerStore {
  import opened Wrappers
  import opened Timers

  /** One stored document `{_id, event, expires, created, kwargs}`; the `_id` is the map key. */
  datatype Row = Row(event: string, expires: int, created: int, kwargs: Kwargs)

  type Store = map<nat, Row>

  /** The record a cursor yields for the row with id `id`. */
  function RecordOf(id: nat, row: Row): RawRecord
  {
    RawRecord(map[IdKey := Some(id)], row.event, row.created, row.expires, row.kwargs)
  }

  /** The timer built from a stored row carries that row's id and fields. */
  function TimerOfRow(id: nat, row: Row): (t: Timer)
    ensures t.id == Some(id)
    ensures t.event == row.event && t.expires == row.expires && t.createdAt == row.created
    ensures t.kwargs == row.kwargs
  {
    TimerOf(RecordOf(id, row))
  }

  /** The filter `{'kwargs.author': requester}`. */
  predicate AuthoredBy(row: Row, requester: int)
  {
    "author" in row.kwargs && row.kwargs["author"] == IntVal(requester)
  }

  /** The filter `{'_id': id, 'kwargs.author': requester}`. */
  predicate MatchesIdAndAuthor(k: nat, row: Row, id: int, requester: int)
  {
    k == id && AuthoredBy(row, requester)
  }

  /** The filter `{'event': 'reminder', 'kwargs.author': requester}`. */
  predicate ListedFor(row: Row, requester: int)
  {
    row.event == "reminder" && AuthoredBy(row, requester)
  }

  /** The ids of the rows `requester` authored. */
  function Owned(s: Store, requester: int): set<nat>
  {
    set k | k in s && AuthoredBy(s[k], requester)
  }

  /** The store after `delete({'_id': id, 'kwargs.author': requester})`. */
  function DeleteByIdAndAuthor(s: Store, id: int, requester: int): Store
  {
    map k | k in s && !MatchesIdAndAuthor(k, s[k], id, requester) :: s[k]
  }

  /** The store after `delete({'kwargs.author': requester})`. */
  function DeleteByAuthor(s: Store, requester: int): Store
  {
    map k | k in s && !AuthoredBy(s[k], requester) :: s[k]
  }

  /** Deleting by id and author removes the row `id` exactly when `requester` authored it,
      keeps every other row as it was, and so removes at most one row. */
  lemma DeleteByIdAndAuthorEffect(s: Store, id: int, requester: int)
    ensures var s' := DeleteByIdAndAuthor(s, id, requester);
      && (id in s && AuthoredBy(s[id], requester) ==> s'.Keys == s.Keys - {id})
      && (!(id in s && AuthoredBy(s[id], requester)) ==> s' == s)
      && (forall k :: k in s' ==> k in s && s'[k] == s[k])
      && |s| - |s'| <= 1
  {
    var s' := DeleteByIdAndAuthor(s, id, requester);
    if id in s && AuthoredBy(s[id], requester) {
      assert s'.Keys == s.Keys - {id};
    } else {
      assert s'.Keys == s.Keys;
    }
  }

  /** Deleting an id that is gone (or not the requester's) again changes nothing. */
  lemma DeleteByIdAndAuthorIdempotent(s: Store, id: int, requester: int)
    ensures DeleteByIdAndAuthor(DeleteByIdAndAuthor(s, id, requester), id, requester)
         == DeleteByIdAndAuthor(s, id, requester)
  {
  }

  /** Clearing by author removes exactly the requester's rows, reports their number as the
      deleted count, and leaves the requester nothing. */
  lemma DeleteByAuthorEffect(s: Store, requester: int)
    ensures var s' := DeleteByAuthor(s, requester);
      && s'.Keys == s.Keys - Owned(s, requester)
      && (forall k :: k in s' ==> s'[k] == s[k])
      && |s| - |s'| == |Owned(s, requester)|
      && Owned(s', requester) == {}
  {
    var s' := DeleteByAuthor(s, requester);
    assert s'.Keys == s.Keys - Owned(s, requester);
    assert Owned(s, requester) <= s.Keys;
  }

  /** The earliest row among the candidate ids `c`: the cursor
      `.set_filter(..).set_sort(("expires", Ascending)).set_limit(1)` over those rows. */
  method EarliestAmong(s: Store, c: set<nat>) returns (r: Option<nat>)
    requires c <= s.Keys
    ensures r.None? <==> c == {}
    ensures r.Some? ==> r.value in c && forall k :: k in c ==> s[r.value].expires <= s[k].expires
  {
    r := None;
    var rest := c;
    while rest != {}
      invariant rest <= c
      invariant r.None? ==> rest == c
      invariant r.Some? ==> r.value in c - rest
      invariant r.Some? ==> forall k :: k in c - rest ==> s[r.value].expires <= s[k].expires
      decreases rest
    {
      var k :| k in rest;
      if r.None? || s[k].expires < s[r.value].expires {
        r := Some(k);
      }
      rest := rest - {k};
    }
  }

  /** `t` is the timer of the earliest row with `expires < limit`. */
  ghost predicate IsEarliestWithin(s: Store, t: Timer, limit: int)
  {
    && t.id.Some? && t.id.value in s
    && t == TimerOfRow(t.id.value, s[t.id.value])
    && t.expires < limit
    && forall k :: k in s && s[k].expires < limit ==> t.expires <= s[k].expires
  }

  /** The earliest row within the window is the earliest row of the whole store. */
  lemma EarliestWithinIsEarliest(s: Store, t: Timer, limit: int)
    requires IsEarliestWithin(s, t, limit)
    ensures forall k :: k in s ==> t.expires <= s[k].expires
  {
    forall k | k in s ensures t.expires <= s[k].expires {
      if s[k].expires >= limit {
        assert t.expires < limit;
      }
    }
  }

  /** The cursor `.set_filter(..).set_sort(("expires", Ascending)).set_limit(limit)` over the
      rows whose ids are in `c`: at most `limit` distinct ids in ascending `expires` order, each
      no later than any matching row left out, and every matching row when fewer than `limit`. */
  method FindSorted(s: Store, c: set<nat>, limit: nat) returns (ids: seq<nat>)
    requires c <= s.Keys
    ensures |ids| <= limit
    ensures forall i :: 0 <= i < |ids| ==> ids[i] in c
    ensures forall i, j :: 0 <= i < j < |ids| ==> ids[i] != ids[j]
    ensures forall i, j :: 0 <= i < j < |ids| ==> s[ids[i]].expires <= s[ids[j]].expires
    ensures forall k, i :: k in c && k !in ids && 0 <= i < |ids| ==> s[ids[i]].expires <= s[k].expires
    ensures |ids| < limit ==> forall k :: k in c ==> k in ids
  {
    ids := [];
    while |ids| < limit
      invariant |ids| <= limit
      invariant forall i :: 0 <= i < |ids| ==> ids[i] in c
      invariant forall i, j :: 0 <= i < j < |ids| ==> ids[i] != ids[j]
      invariant forall i, j :: 0 <= i < j < |ids| ==> s[ids[i]].expires <= s[ids[j]].expires
      invariant forall k, i :: k in c && k !in ids && 0 <= i < |ids| ==> s[ids[i]].expires <= s[k].expires
      decreases limit - |ids|
    {
      var rest := set k | k in c && k !in ids;
      assert forall k :: k in c && k !in ids ==> k in rest;
      var next := EarliestAmong(s, rest);
      if next.None? {
        break;
      }
      ids := ids + [next.value];
    }
  }

  /** `for _ in reminders: total += 1` over the rows found. */
  method CountFound(c: set<nat>) returns (total: nat)
    ensures total == |c|
  {
    total := 0;
    var rest := c;
    while rest != {}
      invariant rest <= c
      invariant total + |rest| == |c|
      decreases rest
    {
      var k :| k in rest;
      total := total + 1;
      rest := rest - {k};
    }
  }

  /** The store after `delete({'_id': id})`: an absent id (or `None`) deletes nothing. */
  function DeleteById(s: Store, id: Option<nat>): (s': Store)
    ensures id.Some? ==> s'.Keys == s.Keys - {id.value}
    ensures id.None? ==> s' == s
    ensures forall k :: k in s' ==> k in s && s'[k] == s[k]
  {
    if id.Some? then s - {id.value} else s
  }
}
