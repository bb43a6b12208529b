/** The token as text and the position the mirror works with are one thing: a canonical stamp is a
    count of microseconds, and the order of the feed is the order of the parts of a token. */
module TokenPosition {
  import opened Wrappers
  import opened Feed
  import opened Lexical
  import opened Decimal
  import opened Calendar
  import opened JsNumber
  import opened WatermarkToken
  import MirrorClient

  /** A canonical stamp that reads a time of day. */
  predicate Timed(stamp: string) { IsCanonical(stamp) && Ticks(Reading(stamp).0) }

  function Instant(stamp: string): int
    requires Timed(stamp)
  {
    Seconds(Reading(stamp).0) * 1000000 + Reading(stamp).1
  }

  function PosOf(p: FeedPosition): Pos
    requires Timed(p.createdAt)
  {
    Pos(Instant(p.createdAt), p.rowid)
  }

  lemma {:induction false} MicrosAreFew(stamp: string)
    requires IsCanonical(stamp)
    ensures Reading(stamp).1 < 1000000
  {
    hide IsDate, IsTime;
    ValueBound(stamp[20..26]);
    assert Pow10(6) == 1000000;
  }

  /** Stamps count microseconds up as their text does, and differ as it does. */
  lemma {:induction false} InstantOrder(s: string, t: string)
    requires Timed(s) && Timed(t)
    ensures Instant(s) < Instant(t) <==> Less(s, t)
    ensures Instant(s) == Instant(t) <==> s == t
    ensures Instant(t) - Instant(s) ==
            (Seconds(Reading(t).0) - Seconds(Reading(s).0)) * 1_000_000 + (Reading(t).1 - Reading(s).1)
  {
    hide IsCanonical, Less, Seconds, Ticks, Reading;
    MicrosAreFew(s);
    MicrosAreFew(t);
    OrderIsChronological(s, t);
    OrderIsChronological(t, s);
    LessTotal(s, t);
  }

  /** The feed's order of positions, read off the parts of two tokens. */
  lemma {:induction false} PositionOrder(p: FeedPosition, q: FeedPosition)
    requires Timed(p.createdAt) && Timed(q.createdAt)
    ensures Before(PosOf(p), PosOf(q)) <==>
            Less(p.createdAt, q.createdAt) || (p.createdAt == q.createdAt && p.rowid < q.rowid)
  {
    hide Timed, Instant, Less;
    InstantOrder(p.createdAt, q.createdAt);
  }

  /** Both models of the stored value agree: a server-minted token parses to the position the
      mirror resumes from exactly if a floating-point number can hold its row id, and a bare
      instant always to row id 0 of its stamp. */
  lemma {:induction false} TokensAreStored(stamp: string, rowid: nat)
    requires Timed(stamp)
    ensures ParseWatermark(Token(stamp, rowid)) == Some(FeedPosition(stamp, Number(rowid)))
    ensures PosOf(FeedPosition(stamp, Number(rowid)))
              == MirrorClient.ParseWatermark(MirrorClient.Position(Pos(Instant(stamp), rowid)))
       <==> rowid % Spacing(rowid) == 0
    ensures ParseWatermark(stamp) == Some(FeedPosition(stamp, 0))
    ensures PosOf(FeedPosition(stamp, 0)) == MirrorClient.ParseWatermark(MirrorClient.Legacy(Instant(stamp)))
  {
    hide IsCanonical, Ticks, Reading, ParseWatermark, Token, Instant, Number, Spacing;
    TokenParses(stamp, rowid);
    NumberExactly(rowid);
    LegacyIsRowZero(stamp);
  }

  /** A number without its last `k` digits. */
  function Leading(n: nat, k: nat): nat { if k == 0 then n else Leading(n / 10, k - 1) }

  /** Its digits are the others' front. */
  lemma {:induction false} DigitsCut(n: nat, k: nat)
    requires k < |Digits(n)|
    ensures Digits(n)[..|Digits(n)| - k] == Digits(Leading(n, k))
  {
    if k > 0 {
      assert Digits(n)[..|Digits(n)| - 1] == Digits(n / 10);
      DigitsCut(n / 10, k - 1);
    } else {
      assert Digits(n)[..|Digits(n)|] == Digits(n);
    }
  }

  /** Which is dividing by a power of ten. */
  lemma {:induction false} LeadingDivides(n: nat, k: nat)
    ensures Leading(n, k) * Pow10(k) <= n < (Leading(n, k) + 1) * Pow10(k)
  {
    if k > 0 {
      LeadingDivides(n / 10, k - 1);
      var h, d := Leading(n / 10, k - 1), Pow10(k - 1);
      TimesTen(h, d);
      TimesTen(h + 1, d);
      TenMore(n, h * d, (h + 1) * d);
    }
  }

  lemma {:induction false} TenMore(n: nat, low: nat, high: nat)
    requires low <= n / 10 < high
    ensures 10 * low <= n < 10 * high
  {
  }

  /** Of two row ids the one with fewer digits sorts first as text exactly if it is no more than
      as many leading digits of the other. */
  lemma {:induction false} ShorterSorts(m: nat, n: nat)
    requires |Digits(m)| < |Digits(n)|
    ensures m < n
    ensures Less(Digits(m), Digits(n)) <==> m <= Leading(n, |Digits(n)| - |Digits(m)|)
    ensures Less(Digits(m), Digits(n)) <==> !Less(Digits(n), Digits(m))
  {
    hide Less, Digits, Leading;
    var dn, k := Digits(n), |Digits(n)| - |Digits(m)|;
    DigitsCut(n, k);
    PrefixSorts(m, Leading(n, k), dn[|dn| - k..]);
    assert dn == dn[..|dn| - k] + dn[|dn| - k..];
    LessTotal(Digits(m), dn);
    LessAsymmetric(Digits(m), dn);
    MoreDigits(m, n);
  }

  lemma {:induction false} PrefixSorts(m: nat, head: nat, tail: string)
    requires |Digits(m)| == |Digits(head)| && tail != ""
    ensures Less(Digits(m), Digits(head) + tail) <==> m <= head
  {
    hide Less, Digits, Value;
    assert Digits(m) + "" == Digits(m);
    LessConcat(Digits(m), "", Digits(head), tail);
    EmptyFirst(tail);
    DigitsCompare(Digits(m), Digits(head));
    ValueOfDigits(m);
    ValueOfDigits(head);
  }

  lemma {:induction false} EmptyFirst(s: string)
    requires s != ""
    ensures Less("", s)
  {
  }

  lemma {:induction false} MoreDigits(m: nat, n: nat)
    requires |Digits(m)| < |Digits(n)|
    ensures m < n
  {
    if m >= 10 && n >= 10 { MoreDigits(m / 10, n / 10); }
  }

  /** Two row ids sort as text as they count. */
  predicate SortsAsCounts(m: nat, n: nat) {
    var dm, dn := |Digits(m)|, |Digits(n)|;
    if dm < dn then m <= Leading(n, dn - dm) else if dn < dm then n <= Leading(m, dm - dn) else true
  }

  lemma {:induction false} SortsExactly(m: nat, n: nat)
    ensures (Less(Digits(m), Digits(n)) <==> m < n) <==> SortsAsCounts(m, n)
  {
    hide Less, Digits, Value, Leading;
    if |Digits(m)| < |Digits(n)| {
      ShorterSorts(m, n);
    } else if |Digits(n)| < |Digits(m)| {
      ShorterSorts(n, m);
    } else {
      DigitsCompare(Digits(m), Digits(n));
      ValueOfDigits(m);
      ValueOfDigits(n);
    }
  }

  /** Whole tokens sort as their positions exactly if they differ in their stamps, or their row ids
      have equally many digits, or the shorter row id is no more than as many leading digits of
      the other: rows 1 and 20 do, rows 9 and 10 do not. */
  lemma {:induction false} TokenOrderExactly(p: FeedPosition, q: FeedPosition)
    requires Timed(p.createdAt) && Timed(q.createdAt)
    ensures (Less(Token(p.createdAt, p.rowid), Token(q.createdAt, q.rowid)) <==> Before(PosOf(p), PosOf(q)))
       <==> p.createdAt != q.createdAt || SortsAsCounts(p.rowid, q.rowid)
  {
    hide Less, Reading, Ticks, Digits, IsDate, IsTime, SortsAsCounts;
    PositionOrder(p, q);
    PartsOrder(p, q);
    SortsExactly(p.rowid, q.rowid);
    LessIrreflexive(p.createdAt);
  }

  lemma {:induction false} PartsOrder(p: FeedPosition, q: FeedPosition)
    requires IsCanonical(p.createdAt) && IsCanonical(q.createdAt)
    ensures Less(Token(p.createdAt, p.rowid), Token(q.createdAt, q.rowid)) <==>
            Less(p.createdAt, q.createdAt) || (p.createdAt == q.createdAt && Less(Digits(p.rowid), Digits(q.rowid)))
  {
    hide IsCanonical, Less, Digits;
    CanonicalLength(p.createdAt);
    CanonicalLength(q.createdAt);
    var a, b := "|" + Digits(p.rowid), "|" + Digits(q.rowid);
    assert Token(p.createdAt, p.rowid) == p.createdAt + a && Token(q.createdAt, q.rowid) == q.createdAt + b;
    LessConcat(p.createdAt, a, q.createdAt, b);
    LessConcat("|", Digits(p.rowid), "|", Digits(q.rowid));
    LessIrreflexive("|");
  }

  lemma {:induction false} NineAndTen()
    ensures !SortsAsCounts(9, 10) && SortsAsCounts(1, 20)
  {
    assert Digits(10) == "10" && Digits(9) == "9" && Digits(1) == "1" && Digits(20) == "20";
    assert Leading(10, 1) == 1 && Leading(20, 1) == 2;
  }
}
