// Track identifiers: "track_" followed by the decimal form of a counter.
module TrackIds {

  predicate IsDigit(c: char) { '0' <= c <= '9' }

  function Digit(d: nat): (c: char)
    requires d < 10
    ensures IsDigit(c)
  {
    '0' + d as char
  }

  function Decimal(n: nat): string {
    if n < 10 then [Digit(n)] else Decimal(n / 10) + [Digit(n % 10)]
  }

  function DigitValue(c: char): nat
    requires IsDigit(c)
  {
    c as int - '0' as int
  }

  // The number a digit string stands for.
  function Value(s: string): nat
    requires forall i :: 0 <= i < |s| ==> IsDigit(s[i])
  {
    if s == [] then 0 else 10 * Value(s[..|s| - 1]) + DigitValue(s[|s| - 1])
  }

  lemma {:induction false} DecimalRoundTrip(n: nat)
    ensures forall i :: 0 <= i < |Decimal(n)| ==> IsDigit(Decimal(n)[i])
    ensures Value(Decimal(n)) == n
  {
    if n >= 10 {
      DecimalRoundTrip(n / 10);
      assert Decimal(n)[..|Decimal(n)| - 1] == Decimal(n / 10);
    } else {
      assert Decimal(n)[..0] == [];
    }
  }

  function TrackID(n: nat): string { "track_" + Decimal(n) }

  // Different counters give different identifiers.
  lemma TrackIDInjective(m: nat, n: nat)
    requires TrackID(m) == TrackID(n)
    ensures m == n
  {
    assert TrackID(m)[6..] == Decimal(m) && TrackID(n)[6..] == Decimal(n);
    DecimalRoundTrip(m);
    DecimalRoundTrip(n);
  }

  // The identifiers 1 .. n - 1.
  ghost function Issued(n: nat): set<string> {
    if n <= 1 then {} else Issued(n - 1) + {TrackID(n - 1)}
  }

  lemma {:induction false} IssuedExactly(n: nat, id: string)
    ensures id in Issued(n) <==> exists k :: 1 <= k < n && id == TrackID(k)
  {
    if n <= 1 {
    } else {
      IssuedExactly(n - 1, id);
    }
  }

  lemma NotYetIssued(n: nat, later: nat)
    ensures TrackID(n + later) !in Issued(n)
  {
    IssuedExactly(n, TrackID(n + later));
    if k :| 1 <= k < n && TrackID(n + later) == TrackID(k) { TrackIDInjective(n + later, k); }
  }

  lemma NextIdIsFresh(n: nat)
    ensures TrackID(n) !in Issued(n)
  {
    NotYetIssued(n, 0);
  }

  // Identifiers that have been issued since the counter stood at n.
  lemma IssuedSince(n: nat, k: nat, id: string) returns (c: nat)
    requires n >= 1 && id in Issued(n + k) && id !in Issued(n)
    ensures c < k && id == TrackID(n + c)
  {
    IssuedExactly(n + k, id);
    IssuedExactly(n, id);
    var m :| 1 <= m < n + k && id == TrackID(m);
    c := m - n;
  }

  // The counter starts at 1.
  lemma FirstIds()
    ensures TrackID(1) == "track_1" && TrackID(2) == "track_2" && TrackID(10) == "track_10"
  {
    assert Decimal(10) == Decimal(1) + [Digit(0)];
  }
}
