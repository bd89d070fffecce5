/**
 Model of the start-up gate of src/main/tls/global.c that refuses to run on a
 libssl release known to carry a critical defect.

 The gate compares the runtime library version against a static table of
 defect records, newest first.  An operator silences it either with the
 override token "yes" or with the identifier of the newest record.
 */
module VersionGate {

  /** Version numbers are `uint64_t` in the source. */
  const U64Limit: nat := 0x1_0000_0000_0000_0000

  type U64 = v: nat | v < U64Limit

  /** One known defect: every version in `[low, high]` (both ends included)
      is affected. */
  datatype Defect = Defect(high: U64, low: U64, id: string, name: string, comment: string)

  /** The compiled-in table, newest defect first. */
  const LibsslDefects: seq<Defect> := [
    Defect(0x01000106f, 0x010001000, "CVE-2014-0160", "Heartbleed",
           "For more information see http://heartbleed.com")
  ]

  /** The acknowledgment value that skips the check outright. */
  const OverrideToken: string := "yes"

  /** Return codes of the gate. */
  const Pass: int := 0
  const Refuse: int := -1

  /** Version `v` lies inside the defect's range. */
  predicate Affects(d: Defect, v: U64) {
    d.low <= v <= d.high
  }

  /** The operator named the newest defect, or gave the override token.
      Only entry 0 is consulted, so the table must not be empty. */
  predicate Acknowledged(table: seq<Defect>, ack: string)
    requires |table| > 0
  {
    ack == table[0].id || ack == OverrideToken
  }

  /** What the gate answers: its return code and the records it reported
      (logged, in the source), in the order it reported them. */
  datatype Verdict = Verdict(code: int, reported: seq<Defect>)

  /** The records of `table` whose range contains `v`, in table order. */
  function Matching(table: seq<Defect>, v: U64): (r: seq<Defect>)
    ensures |r| <= |table|
    ensures forall d :: d in r <==> d in table && Affects(d, v)
  {
    if |table| == 0 then []
    else (if Affects(table[0], v) then [table[0]] else []) + Matching(table[1..], v)
  }

  /** The decision the gate makes, stated over the whole table. */
  function Gate(table: seq<Defect>, ack: string, v: U64): (r: Verdict)
    requires |table| > 0
    ensures r.code == Pass || r.code == Refuse
    ensures r.code == Refuse <==> |r.reported| > 0
    ensures Acknowledged(table, ack) ==> r == Verdict(Pass, [])
    ensures !Acknowledged(table, ack) ==>
              (r.code == Refuse <==> exists i :: 0 <= i < |table| && Affects(table[i], v))
    ensures forall d :: d in r.reported <==> !Acknowledged(table, ack) && d in table && Affects(d, v)
  {
    if Acknowledged(table, ack) then Verdict(Pass, [])
    else
      var found := Matching(table, v);
      if |found| > 0 then
        assert found[0] in table;
        Verdict(Refuse, found)
      else
        assert forall i :: 0 <= i < |table| ==> !Affects(table[i], v) by {
          forall i | 0 <= i < |table| ensures !Affects(table[i], v) {
            assert table[i] !in found;
          }
        }
        Verdict(Pass, [])
  }

  /** The gate as the source runs it: the acknowledgment test, then one pass
      over the entire table that reports every affected record. */
  method VersionCheck(table: seq<Defect>, ack: string, v: U64) returns (code: int, reported: seq<Defect>)
    requires |table| > 0
    ensures Verdict(code, reported) == Gate(table, ack, v)
    ensures code == Refuse <==>
              !Acknowledged(table, ack) && exists i :: 0 <= i < |table| && Affects(table[i], v)
  {
    code, reported := Pass, [];
    if ack != table[0].id && ack != OverrideToken {
      var bad := false;
      for i := 0 to |table|
        invariant reported == Matching(table[..i], v)
        invariant bad <==> |reported| > 0
      {
        MatchingAppend(table[..i], [table[i]], v);
        assert table[..i + 1] == table[..i] + [table[i]];
        if v >= table[i].low && v <= table[i].high {
          reported := reported + [table[i]];
          bad := true;
        }
      }
      assert table[..|table|] == table;
      if bad {
        code := Refuse;
      }
    }
  }

  /** Scanning a table split in two reports the first part's matches, then
      the second part's: the report follows table order. */
  lemma {:induction false} MatchingAppend(a: seq<Defect>, b: seq<Defect>, v: U64)
    ensures Matching(a + b, v) == Matching(a, v) + Matching(b, v)
  {
    if |a| == 0 {
      assert a + b == b;
    } else {
      assert (a + b)[1..] == a[1..] + b;
      MatchingAppend(a[1..], b, v);
    }
  }

  /** A record is reported as often as it occurs in the table when it
      affects `v`, and never otherwise. */
  lemma {:induction false} MatchingCount(table: seq<Defect>, v: U64, d: Defect)
    ensures multiset(Matching(table, v))[d] == if Affects(d, v) then multiset(table)[d] else 0
  {
    if |table| > 0 {
      MatchingCount(table[1..], v, d);
      assert table == [table[0]] + table[1..];
    }
  }

  /** Only the newest record is special: reordering the records after it
      changes neither the verdict nor which records are reported. */
  lemma GateIgnoresOrderAfterNewest(t1: seq<Defect>, t2: seq<Defect>, ack: string, v: U64)
    requires |t1| > 0 && |t2| > 0
    requires t1[0] == t2[0]
    requires multiset(t1[1..]) == multiset(t2[1..])
    ensures Gate(t1, ack, v).code == Gate(t2, ack, v).code
    ensures multiset(Gate(t1, ack, v).reported) == multiset(Gate(t2, ack, v).reported)
  {
    assert t1 == [t1[0]] + t1[1..];
    assert t2 == [t2[0]] + t2[1..];
    assert multiset(t1) == multiset(t2);
    var m1, m2 := Matching(t1, v), Matching(t2, v);
    forall d | true ensures multiset(m1)[d] == multiset(m2)[d] {
      MatchingCount(t1, v, d);
      MatchingCount(t2, v, d);
    }
    assert multiset(m1) == multiset(m2);
    assert |m1| == |multiset(m1)| == |multiset(m2)| == |m2|;
  }

  /** Both ends of a defect's range are inside it, and the versions just
      outside either end pass an unacknowledged check. */
  lemma RangeBoundsInclusive(d: Defect, ack: string)
    requires d.low <= d.high
    requires ack != d.id && ack != OverrideToken
    ensures Gate([d], ack, d.low) == Verdict(Refuse, [d])
    ensures Gate([d], ack, d.high) == Verdict(Refuse, [d])
    ensures d.low > 0 ==> Gate([d], ack, d.low - 1) == Verdict(Pass, [])
    ensures d.high + 1 < U64Limit ==> Gate([d], ack, d.high + 1) == Verdict(Pass, [])
  {
    assert Matching([d], d.low) == [d];
    assert Matching([d], d.high) == [d];
  }

  /** The shipped table refuses exactly the Heartbleed releases 1.0.1 to
      1.0.1f unless the operator acknowledges CVE-2014-0160 or overrides. */
  lemma HeartbleedGate(ack: string, v: U64)
    ensures Gate(LibsslDefects, ack, v).code == Refuse <==>
              ack != "CVE-2014-0160" && ack != "yes" && 0x010001000 <= v <= 0x01000106f
  {
    assert LibsslDefects[0].id == "CVE-2014-0160";
  }
}
