/**
 The order of a redelivery pass (internal/team/board.go, cmd/sta/team.go).  Messages are
 numbered as they are sent and carry the id "msg-<number>"; the board hands out pending
 messages sorted by that string, and the pass dispatches them in that order.
 */
module TeamPendingOrder {
  import opened Common

  function MessageID(n: nat): string { "msg-" + Digits(n) }

  /** Go's order on strings. */
  predicate Less(a: string, b: string) {
    if a == "" then b != ""
    else if b == "" then false
    else if a[0] != b[0] then a[0] < b[0]
    else Less(a[1..], b[1..])
  }

  /** The number formed by the first `k` digits of `n`, or `n` itself if it has no more. */
  function Leading(n: nat, k: nat): nat
    decreases n
  {
    if |Digits(n)| <= k || n == 0 then n else Leading(n / 10, k)
  }

  lemma {:induction false} LessSnoc(a: string, b: string, c: char, d: char)
    requires |a| == |b|
    ensures Less(a + [c], b + [d]) <==> Less(a, b) || (a == b && c < d)
  {
    if a != "" {
      assert (a + [c])[1..] == a[1..] + [c] && (b + [d])[1..] == b[1..] + [d];
      LessSnoc(a[1..], b[1..], c, d);
      assert a == [a[0]] + a[1..] && b == [b[0]] + b[1..];
    }
  }

  lemma {:induction false} LessThanLonger(a: string, b: string)
    requires |a| < |b|
    ensures Less(a, b) <==> Less(a, b[..|a|]) || a == b[..|a|]
  {
    if a != "" {
      LessThanLonger(a[1..], b[1..]);
      assert b[..|a|][1..] == b[1..][..|a| - 1];
      assert a == [a[0]] + a[1..] && b[..|a|] == [b[0]] + b[..|a|][1..];
    }
  }

  lemma {:induction false} LessPrefixed(p: string, a: string, b: string)
    ensures Less(p + a, p + b) <==> Less(a, b)
  {
    if p == "" {
      assert p + a == a && p + b == b;
    } else {
      assert (p + a)[1..] == p[1..] + a && (p + b)[1..] == p[1..] + b;
      LessPrefixed(p[1..], a, b);
    }
  }

  /** With equally many digits, the string order is the numeric order. */
  lemma {:induction false} SameLength(a: nat, b: nat)
    requires |Digits(a)| == |Digits(b)|
    ensures Less(Digits(a), Digits(b)) <==> a < b
    ensures Digits(a) == Digits(b) <==> a == b
  {
    if a >= 10 && b >= 10 {
      SameLength(a / 10, b / 10);
      LessSnoc(Digits(a / 10), Digits(b / 10), Digit(a % 10), Digit(b % 10));
      assert Digits(a)[..|Digits(a)| - 1] == Digits(a / 10) && Digits(b)[..|Digits(b)| - 1] == Digits(b / 10);
    }
  }

  lemma {:induction false} LongerIsLarger(a: nat, b: nat)
    requires a <= b
    ensures |Digits(a)| <= |Digits(b)|
  {
    if a >= 10 { LongerIsLarger(a / 10, b / 10); }
  }

  lemma {:induction false} LeadingDigits(n: nat, k: nat)
    requires 1 <= k <= |Digits(n)|
    ensures Digits(Leading(n, k)) == Digits(n)[..k]
    decreases n
  {
    if k < |Digits(n)| {
      LeadingDigits(n / 10, k);
      assert Digits(n)[..k] == Digits(n / 10)[..k];
    }
  }

  /**
   The exact condition: of two pending messages, the one sent first is redelivered first if
   and only if its number is at most the number formed by equally many leading digits of
   the other.
   */
  lemma RedeliveredInSendOrder(a: nat, b: nat)
    requires a < b
    ensures Less(MessageID(a), MessageID(b)) <==> a <= Leading(b, |Digits(a)|)
  {
    LessPrefixed("msg-", Digits(a), Digits(b));
    LongerIsLarger(a, b);
    if |Digits(a)| == |Digits(b)| {
      SameLength(a, b);
    } else {
      LessThanLonger(Digits(a), Digits(b));
      LeadingDigits(b, |Digits(a)|);
      SameLength(a, Leading(b, |Digits(a)|));
    }
  }

  /** Of two different strings exactly one comes first. */
  lemma {:induction false} LessIsTotal(a: string, b: string)
    ensures Less(a, b) ==> !Less(b, a) && a != b
    ensures a == b || Less(a, b) || Less(b, a)
  {
    if a != "" && b != "" && a[0] == b[0] {
      LessIsTotal(a[1..], b[1..]);
      assert a == [a[0]] + a[1..] && b == [b[0]] + b[1..];
    }
  }

  /** So the tenth message overtakes the second. */
  lemma {:induction false} TenOvertakesTwo()
    ensures MessageID(10) == "msg-10" && MessageID(2) == "msg-2"
    ensures Less(MessageID(10), MessageID(2)) && !Less(MessageID(2), MessageID(10))
  {
    LessPrefixed("msg-", Digits(10), Digits(2));
    LessPrefixed("msg-", Digits(2), Digits(10));
    assert Digits(10) == Digits(1) + [Digit(0)] == ['1', '0'];
    assert Digits(2) == ['2'];
  }
}
