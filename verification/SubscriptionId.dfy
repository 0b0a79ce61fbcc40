/** Subscription identifiers: printed as session-type-time and taken apart again. */
module SubscriptionId {
  import opened Seqs
  import opened Decimal

  type MessageType = t: int | 0 <= t < 256

  /** The last message type; larger numbers are not valid types. */
  const UNKNOWN: MessageType := 13

  function NewSubscriptionID(session: string, msgType: MessageType, now: nat): string {
    session + "-" + (Print(msgType) + "-" + Print(now))
  }

  /** Reading one more character: a dash opens a new part, anything else extends the last one. */
  function Extend(parts: seq<string>, c: char): seq<string>
    requires |parts| >= 1
  {
    if c == '-' then parts + [""] else parts[..|parts| - 1] + [parts[|parts| - 1] + [c]]
  }

  /** The parts between dashes. */
  function Split(s: string): (parts: seq<string>)
    ensures |parts| >= 1
  {
    if s == "" then [""] else Extend(Split(s[..|s| - 1]), s[|s| - 1])
  }

  lemma ExtendAfter(x: seq<string>, y: seq<string>, c: char)
    requires |y| >= 1
    ensures Extend(x + y, c) == x + Extend(y, c)
  {
    assert (x + y)[..|x + y| - 1] == x + y[..|y| - 1];
  }

  lemma {:induction false} SplitAtDash(a: string, b: string)
    ensures Split(a + "-" + b) == Split(a) + Split(b)
    decreases |b|
  {
    var s := a + "-" + b;
    if b == "" {
      assert s[..|s| - 1] == a && s[|s| - 1] == '-';
    } else {
      var front, c := b[..|b| - 1], b[|b| - 1];
      calc {
        Split(s);
        { assert s[..|s| - 1] == a + "-" + front && s[|s| - 1] == c; }
        Extend(Split(a + "-" + front), c);
        { SplitAtDash(a, front); }
        Extend(Split(a) + Split(front), c);
        { ExtendAfter(Split(a), Split(front), c); }
        Split(a) + Split(b);
      }
    }
  }

  lemma {:induction false} SplitCountsDashes(s: string)
    ensures '-' !in s ==> Split(s) == [s]
    ensures '-' in s ==> |Split(s)| >= 2
  {
    if s != "" {
      SplitCountsDashes(s[..|s| - 1]);
      assert s == s[..|s| - 1] + [s[|s| - 1]];
    }
  }

  /** Signed 8-bit decimal numbers, with an optional sign. */
  function ParseInt8(s: string): Option<int> {
    if s == "" then None
    else
      var digits := if s[0] == '+' || s[0] == '-' then s[1..] else s;
      if digits == "" || !AllDigits(digits) then None
      else
        var v: int := ValueOf(digits);
        if s[0] == '-' then (if v > 128 then None else Some(-v))
        else if v > 127 then None else Some(v)
  }

  function Unwrap(id: string): Option<(string, int, string)> {
    var parts := Split(id);
    if |parts| != 3 then None
    else match ParseInt8(parts[1])
      case None => None
      case Some(t) => if t > UNKNOWN then None else Some((parts[0], t, parts[2]))
  }

  /** The identifier under which a subscription is filed. */
  function SubscriptionIdentifier(id: string): string {
    match Unwrap(id)
    case Some((_, _, identifier)) => identifier
    case None => ""
  }

  /** Whether identifiers of this session and type can be taken apart. */
  predicate Addressable(session: string, msgType: MessageType) {
    '-' !in session && msgType <= UNKNOWN
  }

  /** A generated identifier gives back its parts exactly when the session has no dash and the type is valid. */
  lemma UnwrapGeneratedIff(session: string, msgType: MessageType, now: nat)
    ensures Unwrap(NewSubscriptionID(session, msgType, now)) ==
            if Addressable(session, msgType) then Some((session, msgType as int, Print(now))) else None
  {
    var t, n := Print(msgType), Print(now);
    SplitGenerated(session, t, n);
    SplitCountsDashes(session);
    ValueOfPrint(msgType);
    assert IsDigit(t[0]);
    assert ParseInt8(t) == if msgType <= 127 then Some(msgType as int) else None;
  }

  lemma SplitGenerated(session: string, t: string, n: string)
    requires AllDigits(t) && AllDigits(n)
    ensures Split(session + "-" + (t + "-" + n)) == Split(session) + [t, n]
  {
    SplitAtDash(session, t + "-" + n);
    SplitAtDash(t, n);
    SplitCountsDashes(t);
    SplitCountsDashes(n);
  }
}
