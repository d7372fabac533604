/**
 * The per-room live state of the chat page: the list of users typing (`typing` / `stopTyping`
 * events) and the append-only reaction and read-by ledgers keyed by message id.
 */
module LiveState {
  import opened ChatTypes
  import Seqs

  // ----- typing -----

  /** `prev.includes(userId) ? prev : [...prev, userId]`. */
  function StartTyping(prev: seq<Id>, userId: Id): (r: seq<Id>)
    ensures userId in r
    ensures |prev| <= |r| <= |prev| + 1 && r[..|prev|] == prev
    ensures multiset(r)[userId] == if userId in prev then multiset(prev)[userId] else 1
    ensures forall v :: v != userId ==> multiset(r)[v] == multiset(prev)[v]
  {
    if userId in prev then prev else prev + [userId]
  }

  /** `prev.filter(id => id !== userId)`. */
  function StopTyping(prev: seq<Id>, userId: Id): (r: seq<Id>)
    ensures userId !in r
    ensures forall v :: v != userId ==> multiset(r)[v] == multiset(prev)[v]
    ensures Seqs.Subsequence(r, prev)
  {
    var r := Seqs.Filter(prev, (id: Id) => id != userId);
    Seqs.FilterIsSubsequence(prev, (id: Id) => id != userId);
    forall v | v != userId ensures multiset(r)[v] == multiset(prev)[v] {
      Seqs.FilterMultiplicity(prev, (id: Id) => id != userId, v);
    }
    r
  }

  /** Repeated starts keep one copy of the user. */
  lemma StartTypingTwice(prev: seq<Id>, userId: Id)
    ensures StartTyping(StartTyping(prev, userId), userId) == StartTyping(prev, userId)
  {
  }

  /** A start followed by a stop leaves the user absent and every other typer as the stop alone would. */
  lemma StartThenStop(prev: seq<Id>, userId: Id)
    ensures StopTyping(StartTyping(prev, userId), userId) == StopTyping(prev, userId)
  {
    if userId !in prev {
      Seqs.FilterAppend(prev, [userId], (id: Id) => id != userId);
    }
  }

  /** Both transitions keep the list free of duplicates; it starts empty, so it never holds one. */
  lemma TypingKeepsNoDuplicates(prev: seq<Id>, userId: Id)
    requires Seqs.NoDuplicates(prev)
    ensures Seqs.NoDuplicates(StartTyping(prev, userId))
    ensures Seqs.NoDuplicates(StopTyping(prev, userId))
  {
    Seqs.FilterNoDuplicates(prev, (id: Id) => id != userId);
  }

  // ----- reactions and read receipts -----

  /** `prev[key] || []`. */
  function Entries<T>(ledger: map<Id, seq<T>>, key: Id): seq<T> {
    if key in ledger then ledger[key] else []
  }

  /** `{ ...prev, [key]: [...(prev[key] || []), value] }`: one more entry at the end of that message's list. */
  function Append<T>(ledger: map<Id, seq<T>>, key: Id, value: T): (r: map<Id, seq<T>>)
    ensures r.Keys == ledger.Keys + {key}
    ensures Entries(r, key) == Entries(ledger, key) + [value]
    ensures forall k :: k in ledger && k != key ==> r[k] == ledger[k]
  {
    ledger[key := Entries(ledger, key) + [value]]
  }

  /** A sequence of events, each a message id and the value it carries. */
  function AppendAll<T>(ledger: map<Id, seq<T>>, events: seq<(Id, T)>): map<Id, seq<T>>
    decreases |events|
  {
    if events == [] then ledger else AppendAll(Append(ledger, events[0].0, events[0].1), events[1..])
  }

  /** The values that `events` carry for message `key`, in order. */
  function ValuesFor<T>(events: seq<(Id, T)>, key: Id): seq<T> {
    if events == [] then [] else (if events[0].0 == key then [events[0].1] else []) + ValuesFor(events[1..], key)
  }

  /**
   * The ledger is an append-only log: after any sequence of events, a message's list is its old
   * list followed by every value the events carried for it, duplicates included, in arrival order.
   */
  lemma {:induction false} AppendAllLog<T>(ledger: map<Id, seq<T>>, events: seq<(Id, T)>, key: Id)
    ensures Entries(AppendAll(ledger, events), key) == Entries(ledger, key) + ValuesFor(events, key)
    decreases |events|
  {
    if events != [] {
      var next := Append(ledger, events[0].0, events[0].1);
      AppendAllLog(next, events[1..], key);
    }
  }
}
