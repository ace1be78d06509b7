/** strings.TrimSpace, by which the runtime normalizes ids. */
module TextTrim {
  /** Go's unicode.IsSpace. */
  predicate IsSpace(c: char) {
    || '\t' <= c <= '\r' || c == ' ' || c == '\U{85}' || c == '\U{A0}' || c == '\U{1680}'
    || '\U{2000}' <= c <= '\U{200A}' || c == '\U{2028}' || c == '\U{2029}' || c == '\U{202F}'
    || c == '\U{205F}' || c == '\U{3000}'
  }

  function TrimLeft(s: string): string {
    if s != "" && IsSpace(s[0]) then TrimLeft(s[1..]) else s
  }

  function TrimRight(s: string): (t: string)
    ensures |t| <= |s| && t == s[..|t|]
    ensures t == "" || !IsSpace(t[|t| - 1])
    ensures t == s <==> s == "" || !IsSpace(s[|s| - 1])
  {
    if s != "" && IsSpace(s[|s| - 1]) then TrimRight(s[..|s| - 1]) else s
  }

  /** Go's strings.TrimSpace. */
  function Trim(s: string): string { TrimRight(TrimLeft(s)) }

  lemma {:induction false} TrimLeftStarts(s: string)
    ensures TrimLeft(s) == "" || !IsSpace(TrimLeft(s)[0])
    ensures TrimLeft(s) == s <==> s == "" || !IsSpace(s[0])
    ensures |TrimLeft(s)| <= |s|
  {
    if s != "" && IsSpace(s[0]) { TrimLeftStarts(s[1..]); }
  }

  lemma TrimIsIdempotent(s: string)
    ensures Trim(Trim(s)) == Trim(s)
  {
    TrimLeftStarts(s);
    var l := TrimLeft(s);
    var t := TrimRight(l);
    if t != "" { assert t[0] == l[0]; }
    TrimLeftStarts(t);
  }

  lemma {:induction false} TrimRightKeepsVisible(s: string)
    requires s != "" && !IsSpace(s[0])
    ensures TrimRight(s) != ""
  {
    if IsSpace(s[|s| - 1]) { TrimRightKeepsVisible(s[..|s| - 1]); }
  }

  lemma {:induction false} TrimLeftIsInside(s: string)
    ensures forall c | c in TrimLeft(s) :: c in s
  {
    if s != "" && IsSpace(s[0]) { TrimLeftIsInside(s[1..]); }
  }

  lemma TrimIsInside(s: string)
    ensures forall c | c in Trim(s) :: c in s
  {
    TrimLeftIsInside(s);
    var l := TrimLeft(s);
    assert Trim(s) == l[..|Trim(s)|];
  }

  lemma {:induction false} TrimLeftCuts(s: string) returns (i: nat)
    ensures i <= |s| && TrimLeft(s) == s[i..] && forall k | 0 <= k < i :: IsSpace(s[k])
  {
    i := 0;
    if s != "" && IsSpace(s[0]) {
      i := TrimLeftCuts(s[1..]);
      i := i + 1;
    }
  }

  lemma {:induction false} TrimRightCuts(s: string)
    ensures forall k | |TrimRight(s)| <= k < |s| :: IsSpace(s[k])
  {
    if s != "" && IsSpace(s[|s| - 1]) { TrimRightCuts(s[..|s| - 1]); }
  }

  /** Trimming cuts off white space on both sides, and all of it. */
  lemma TrimIsTheMiddle(s: string) returns (i: nat, j: nat)
    ensures i <= j <= |s| && Trim(s) == s[i..j]
    ensures forall k | 0 <= k < i || j <= k < |s| :: IsSpace(s[k])
    ensures i < j ==> !IsSpace(s[i]) && !IsSpace(s[j - 1])
  {
    i := TrimLeftCuts(s);
    TrimLeftStarts(s);
    TrimRightCuts(s[i..]);
    j := i + |Trim(s)|;
    assert forall k | j <= k < |s| :: s[k] == s[i..][k - i];
  }

  /** Nothing is left exactly of a text without a visible character. */
  lemma TrimIsBlankExactlyWhen(s: string)
    ensures Trim(s) == "" <==> forall c | c in s :: IsSpace(c)
  {
    var i, j := TrimIsTheMiddle(s);
    if i < j { assert s[i] in s; }
  }
}
