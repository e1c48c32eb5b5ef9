/** The `Timer` value object of the reminder cog: one scheduled occurrence of a named event,
    built from a dictionary-shaped record (a stored row or a temporary pseudo-record).
    Times are whole seconds. */
module Timers {
  import opened Wrappers

  /** A keyword-argument value of a timer (the source only stores JSON-serialisable values). */
  datatype Value = IntVal(i: int) | StrVal(s: string) | TimeVal(t: int) | NullVal

  type Kwargs = map<string, Value>

  /** The dictionary a `Timer` is built from. The keys `event`, `created`, `expires` and
      `kwargs` are always present; `idFields` holds whichever id-like keys the record
      has (`_id` for a stored row, `id` for a temporary pseudo-record). */
  datatype RawRecord = RawRecord(
    idFields: map<string, Option<nat>>,
    event: string,
    created: int,
    expires: int,
    kwargs: Kwargs)

  datatype Timer = Timer(
    id: Option<nat>,
    event: string,
    createdAt: int,
    expires: int,
    kwargs: Kwargs)

  /** The key `Timer.__init__` reads its id from. */
  const IdKey: string := "_id"

  /** What `Timer(record=r)` holds: the id is `r.get('_id', None)`, the rest is copied. */
  function TimerOf(r: RawRecord): Timer
  {
    Timer(if IdKey in r.idFields then r.idFields[IdKey] else None,
          r.event, r.created, r.expires, r.kwargs)
  }

  /** `Timer.__init__`: reads the fields of the record and copies its kwargs one key at a time. */
  method NewTimer(r: RawRecord) returns (t: Timer)
    ensures t == TimerOf(r)
    ensures t.id.Some? <==> IdKey in r.idFields && r.idFields[IdKey].Some?
    ensures t.kwargs == r.kwargs && t.expires == r.expires && t.createdAt == r.created
  {
    var id := if IdKey in r.idFields then r.idFields[IdKey] else None;
    var copied: Kwargs := map[];
    var rest := r.kwargs.Keys;
    while rest != {}
      invariant rest <= r.kwargs.Keys
      invariant copied.Keys == r.kwargs.Keys - rest
      invariant forall k :: k in copied ==> copied[k] == r.kwargs[k]
      decreases rest
    {
      var k :| k in rest;
      copied := copied[k := r.kwargs[k]];
      rest := rest - {k};
    }
    t := Timer(id, r.event, r.created, r.expires, copied);
  }

  /** The pseudo-record `Timer.temporary` builds: its id sits under the key `id`, not `_id`. */
  function PseudoRecord(expires: int, created: int, event: string, kwargs: Kwargs): RawRecord
  {
    RawRecord(map["id" := None], event, created, expires, kwargs)
  }

  /** `Timer.temporary`: a timer that never carries an id, whatever it is built from. */
  function Temporary(expires: int, created: int, event: string, kwargs: Kwargs): (t: Timer)
    ensures t.id == None
    ensures t.event == event && t.expires == expires && t.createdAt == created && t.kwargs == kwargs
  {
    TimerOf(PseudoRecord(expires, created, event, kwargs))
  }

  /** `Timer.__eq__` between two timers: only the ids are compared. */
  predicate TimerEq(a: Timer, b: Timer)
  {
    a.id == b.id
  }

  /** `Timer.__hash__`: Python's `hash` applied to the id alone. */
  function TimerHash(t: Timer, pyHash: Option<nat> -> int): int
  {
    pyHash(t.id)
  }

  /** Equal timers hash alike, and equality ignores every field but the id. */
  lemma EqualTimersHashAlike(a: Timer, b: Timer, pyHash: Option<nat> -> int)
    requires TimerEq(a, b)
    ensures TimerHash(a, pyHash) == TimerHash(b, pyHash)
  {
  }

  /** Any two id-less timers are equal, however different their events, times and kwargs. */
  lemma IdlessTimersEqual(a: Timer, b: Timer)
    requires a.id == None && b.id == None
    ensures TimerEq(a, b)
  {
  }

  /** Two temporary timers always compare equal. */
  lemma TemporaryTimersEqual(e1: int, c1: int, ev1: string, k1: Kwargs,
                             e2: int, c2: int, ev2: string, k2: Kwargs)
    ensures TimerEq(Temporary(e1, c1, ev1, k1), Temporary(e2, c2, ev2, k2))
  {
  }

  /** The result of the `author_id` property: `None` for empty kwargs, `kwargs['author']`
      otherwise, and a `KeyError` when non-empty kwargs have no `author`. */
  datatype AuthorLookup = NoAuthor | Author(v: Value) | MissingAuthorKey

  function AuthorId(t: Timer): (r: AuthorLookup)
    ensures r == NoAuthor <==> t.kwargs == map[]
    ensures r == MissingAuthorKey <==> t.kwargs != map[] && "author" !in t.kwargs
    ensures r.Author? <==> "author" in t.kwargs
    ensures r.Author? ==> r.v == t.kwargs["author"]
  {
    if t.kwargs == map[] then NoAuthor
    else if "author" in t.kwargs then Author(t.kwargs["author"])
    else MissingAuthorKey
  }

  /** The event name a fired timer is dispatched under. */
  function EventName(event: string): string
  {
    event + "_timer_complete"
  }

  /** Different events are dispatched under different names. */
  lemma EventNameInjective(e1: string, e2: string)
    requires EventName(e1) == EventName(e2)
    ensures e1 == e2
  {
    assert e1 == EventName(e1)[..|e1|];
    assert e2 == EventName(e2)[..|e2|];
  }
}
