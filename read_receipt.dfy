/**
 * The tick shown under a sent message: nothing, one gray tick (sent), two gray ticks (read by
 * some), or two blue ticks (read by everyone else). `readBy` is the message's entry of the
 * read-by ledger, which the live channel only ever appends to.
 */
module ReadReceipt {
  import opened ChatTypes
  import Seqs

  datatype Tick = NoTick | Single | GrayDouble | BlueDouble

  /** `readBy.filter(id => id !== userId)`: the read entries not written by the viewer. */
  function Others(readBy: seq<Id>, userId: Id): (r: seq<Id>)
    ensures userId !in r
    ensures forall v :: v in r <==> v in readBy && v != userId
    ensures forall v :: v != userId ==> multiset(r)[v] == multiset(readBy)[v]
  {
    var r := Seqs.Filter(readBy, (id: Id) => id != userId);
    forall v | v != userId ensures multiset(r)[v] == multiset(readBy)[v] {
      Seqs.FilterMultiplicity(readBy, (id: Id) => id != userId, v);
    }
    r
  }

  /** The classification as written: `total` missing (or zero) or at most one shows nothing. */
  function Receipt(readBy: seq<Id>, total: Option<int>, userId: Id): (r: Tick)
    ensures r != NoTick ==> total.Some? && total.value >= 2
    ensures r == BlueDouble ==> |Others(readBy, userId)| == total.value - 1
    ensures (r == GrayDouble || r == BlueDouble) <==> r != NoTick && |Others(readBy, userId)| > 0
  {
    if total.None? || total.value <= 1 then NoTick
    else
      var n := |Others(readBy, userId)|;
      if n == total.value - 1 && n > 0 then BlueDouble
      else if n > 0 then GrayDouble
      else Single
  }

  /** Nothing is shown exactly when there is no member count above one. */
  lemma NoTickIff(readBy: seq<Id>, total: Option<int>, userId: Id)
    ensures Receipt(readBy, total, userId) == NoTick <==> total.None? || total.value <= 1
  {
  }

  /** Blue iff the entries by others number exactly one less than the members. */
  lemma BlueIff(readBy: seq<Id>, total: Option<int>, userId: Id)
    ensures Receipt(readBy, total, userId) == BlueDouble
      <==> total.Some? && total.value > 1 && |Others(readBy, userId)| == total.value - 1
  {
  }

  /** Gray double iff others have read but their count is not one less than the members. */
  lemma GrayIff(readBy: seq<Id>, total: Option<int>, userId: Id)
    ensures Receipt(readBy, total, userId) == GrayDouble
      <==> (total.Some? && total.value > 1 && |Others(readBy, userId)| > 0
             && |Others(readBy, userId)| != total.value - 1)
  {
  }

  /** A single tick iff there is a member count above one and no entry by anyone but the viewer. */
  lemma SingleIff(readBy: seq<Id>, total: Option<int>, userId: Id)
    ensures Receipt(readBy, total, userId) == Single
      <==> total.Some? && total.value > 1 && forall v :: v in readBy ==> v == userId
  {
    var others := Others(readBy, userId);
    if others != [] {
      assert others[0] in readBy;
    }
  }

  /** The viewer's own entries make no difference. */
  lemma {:induction false} OwnEntriesIgnored(readBy: seq<Id>, total: Option<int>, userId: Id)
    ensures Receipt(readBy + [userId], total, userId) == Receipt(readBy, total, userId)
    ensures Receipt([userId] + readBy, total, userId) == Receipt(readBy, total, userId)
  {
    Seqs.FilterAppend(readBy, [userId], (id: Id) => id != userId);
    Seqs.FilterAppend([userId], readBy, (id: Id) => id != userId);
  }

  /** Only the number of entries by others matters: not their order, not who wrote them. */
  lemma OnlyCountMatters(a: seq<Id>, b: seq<Id>, total: Option<int>, userId: Id)
    requires |Others(a, userId)| == |Others(b, userId)|
    ensures Receipt(a, total, userId) == Receipt(b, total, userId)
  {
  }

  /** In particular, reordering the read events changes nothing. */
  lemma OrderIgnored(a: seq<Id>, b: seq<Id>, total: Option<int>, userId: Id)
    requires multiset(a) == multiset(b)
    ensures Receipt(a, total, userId) == Receipt(b, total, userId)
  {
    Seqs.CountPermutation(a, b, (id: Id) => id != userId);
  }

  /**
   * Repeated read events are counted separately: one other reader who read twice, in a group
   * of three, turns the ticks blue although the third member has not read.
   */
  lemma RepeatedReaderTurnsBlue()
    ensures Receipt(["a", "a"], Some(3), "me") == BlueDouble
    ensures Receipt(["a"], Some(3), "me") == GrayDouble
  {
    assert Others(["a", "a"], "me") == ["a", "a"];
    assert Others(["a"], "me") == ["a"];
  }

  /** ... and everyone having read, with one of them twice, leaves the ticks gray. */
  lemma RepeatedReaderStaysGray()
    ensures Receipt(["a", "b"], Some(3), "me") == BlueDouble
    ensures Receipt(["a", "b", "a"], Some(3), "me") == GrayDouble
  {
    assert Others(["a", "b"], "me") == ["a", "b"];
    assert Others(["a", "b", "a"], "me") == ["a", "b", "a"];
  }

  // ----- the classification as evidently intended: count readers, not read events -----

  /** The distinct ids other than the viewer's among the read entries. */
  function Readers(readBy: seq<Id>, userId: Id): (r: set<Id>)
    ensures forall v :: v in r <==> v in readBy && v != userId
  {
    set v | v in readBy && v != userId
  }

  /** Every member other than the sender has read: blue; some have: gray; none: a single tick. */
  function ReceiptByReaders(readBy: seq<Id>, total: Option<int>, userId: Id): (r: Tick)
    ensures r == NoTick <==> total.None? || total.value <= 1
    ensures r == BlueDouble <==> total.Some? && total.value > 1 && |Readers(readBy, userId)| == total.value - 1
    ensures r == Single <==> total.Some? && total.value > 1 && Readers(readBy, userId) == {}
    ensures r == GrayDouble <==> (total.Some? && total.value > 1 && Readers(readBy, userId) != {}
                                  && |Readers(readBy, userId)| != total.value - 1)
  {
    if total.None? || total.value <= 1 then NoTick
    else
      var n := |Readers(readBy, userId)|;
      if n == total.value - 1 && n > 0 then BlueDouble
      else if n > 0 then GrayDouble
      else Single
  }

  /** A repeated read event changes nothing. */
  lemma ReaderRepeatIgnored(readBy: seq<Id>, v: Id, total: Option<int>, userId: Id)
    requires v in readBy
    ensures ReceiptByReaders(readBy + [v], total, userId) == ReceiptByReaders(readBy, total, userId)
  {
    assert Readers(readBy + [v], userId) == Readers(readBy, userId);
  }

  /** Both rules agree whenever no one other than the viewer read the message twice. */
  lemma {:induction false} ReadersAgreeWithoutRepeats(readBy: seq<Id>, total: Option<int>, userId: Id)
    requires Seqs.NoDuplicates(readBy)
    ensures ReceiptByReaders(readBy, total, userId) == Receipt(readBy, total, userId)
  {
    var others := Others(readBy, userId);
    Seqs.FilterNoDuplicates(readBy, (id: Id) => id != userId);
    DistinctCardinality(others);
    assert Readers(readBy, userId) == set v | v in others;
  }

  /** A sequence without repeats has as many distinct elements as entries. */
  lemma {:induction false} DistinctCardinality(s: seq<Id>)
    requires Seqs.NoDuplicates(s)
    ensures |set v | v in s| == |s|
  {
    if s != [] {
      var rest := s[1..];
      assert Seqs.NoDuplicates(rest) by {
        forall i, j | 0 <= i < j < |rest| ensures rest[i] != rest[j] {
          assert rest[i] == s[i + 1] && rest[j] == s[j + 1];
        }
      }
      DistinctCardinality(rest);
      assert s[0] !in rest by {
        forall i | 0 <= i < |rest| ensures rest[i] != s[0] {
          assert rest[i] == s[i + 1];
        }
      }
      assert (set v | v in s) == (set v | v in rest) + {s[0]} by {
        assert s == [s[0]] + rest;
      }
    }
  }

  /** Reading only ever moves the corrected ticks forward: single, then gray, then blue, as long as readers are members. */
  lemma ReadingNeverRegresses(readBy: seq<Id>, v: Id, total: Option<int>, userId: Id)
    requires total.Some? && |Readers(readBy + [v], userId)| <= total.value - 1
    ensures Rank(ReceiptByReaders(readBy, total, userId)) <= Rank(ReceiptByReaders(readBy + [v], total, userId))
  {
    assert Readers(readBy, userId) <= Readers(readBy + [v], userId);
    SubsetCardinality(Readers(readBy, userId), Readers(readBy + [v], userId));
  }

  lemma SubsetCardinality(a: set<Id>, b: set<Id>)
    requires a <= b
    ensures |a| <= |b|
  {
    assert b == a + (b - a);
  }

  /** How far the ticks have advanced. */
  function Rank(t: Tick): nat {
    match t
    case NoTick => 0
    case Single => 1
    case GrayDouble => 2
    case BlueDouble => 3
  }
}
