/** The terminal status as compact JSON text, and that reading the text back gives
    the status: the codec the exec stream relies on. */
module Statuses {
  import opened Text
  import opened Frames
  import opened Slugs

  const EXITED := "{\"status\":\"exited\",\"exit_code\":"
  const SIGNALED := "{\"status\":\"signaled\",\"signal\":"

  function Signed(n: int): string {
    if n < 0 then "-" + Decimal(-n) else Decimal(n)
  }

  function Json(status: Status): string {
    match status
    case Exited(code) => EXITED + Signed(code) + "}"
    case Signaled(signal) => SIGNALED + Signed(signal) + "}"
  }

  predicate IsAscii(s: string) {
    forall i :: 0 <= i < |s| ==> s[i] as int < 128
  }

  function Bytes(s: string): seq<byte>
    requires IsAscii(s)
  {
    seq(|s|, i requires 0 <= i < |s| => s[i] as int)
  }

  function Characters(bytes: seq<byte>): string {
    seq(|bytes|, i requires 0 <= i < |bytes| => bytes[i] as char)
  }

  /** A number as JSON allows it: digits without a leading zero. */
  predicate IsNatural(s: string) {
    s != "" && (forall i :: 0 <= i < |s| ==> '0' <= s[i] <= '9') && (|s| > 1 ==> s[0] != '0')
  }

  function Natural(s: string): nat
    requires forall i :: 0 <= i < |s| ==> '0' <= s[i] <= '9'
  {
    if s == "" then 0 else 10 * Natural(s[..|s| - 1]) + (s[|s| - 1] as int - '0' as int)
  }

  function Integer(s: string): Option<int> {
    if IsNatural(s) then Some(Natural(s))
    else if "-" <= s && IsNatural(s[1..]) then
      var size: int := Natural(s[1..]);
      Some(-size)
    else None
  }

  function ReadCode(s: string): Option<int32> {
    match Integer(s)
    case Some(n) => if -0x8000_0000 <= n < 0x8000_0000 then Some(n) else None
    case None => None
  }

  function ReadStatus(bytes: seq<byte>): Option<Status> {
    var s := Characters(bytes);
    if s == "" || s[|s| - 1] != '}' then None
    else
      var front := s[..|s| - 1];
      if EXITED <= front then
        match ReadCode(front[|EXITED|..])
        case Some(code) => Some(Exited(code))
        case None => None
      else if SIGNALED <= front then
        match ReadCode(front[|SIGNALED|..])
        case Some(signal) => Some(Signaled(signal))
        case None => None
      else None
  }

  lemma DigitSnoc(s: string, digit: nat)
    requires digit < 10 && (s == "" || (IsNatural(s) && s[0] != '0'))
    ensures IsNatural(s + [DIGITS[digit]])
    ensures Natural(s + [DIGITS[digit]]) == 10 * Natural(s) + digit
  {
    assert (s + [DIGITS[digit]])[..|s|] == s;
    assert DIGITS[digit] as int == '0' as int + digit;
  }

  lemma {:induction false} DecimalIsNatural(n: nat)
    ensures IsNatural(Decimal(n)) && Natural(Decimal(n)) == n
    ensures n > 0 ==> Decimal(n)[0] != '0'
    decreases n
  {
    hide Decimal, IsNatural, Natural;
    DecimalLast(n);
    var front := if n < 10 then "" else Decimal(n / 10);
    if n >= 10 {
      DecimalIsNatural(n / 10);
    }
    assert Decimal(n) == front + [DIGITS[n % 10]];
    DigitSnoc(front, n % 10);
    NothingIsZero();
  }

  lemma NothingIsZero()
    ensures Natural("") == 0
  {
  }

  function Tens(k: nat): nat {
    if k == 0 then 1 else 10 * Tens(k - 1)
  }

  lemma {:induction false} DecimalSize(n: nat, k: nat)
    requires k > 0 && n < Tens(k)
    ensures |Decimal(n)| <= k
    decreases k
  {
    if n >= 10 {
      DecimalSize(n / 10, k - 1);
    }
  }

  lemma SignedReads(n: int32)
    ensures IsAscii(Signed(n)) && ReadCode(Signed(n)) == Some(n) && |Signed(n)| <= 11
  {
    hide Decimal, Natural, Tens;
    var size: int := if n < 0 then -(n as int) else n;
    DecimalIsNatural(size);
    TenDigits();
    DecimalSize(size, 10);
    if n < 0 {
      assert Signed(n)[1..] == Decimal(size);
    }
  }

  lemma TenDigits()
    ensures Tens(10) == 10_000_000_000
  {
    assert Tens(5) == 100_000;
  }

  /** A text is one of the two forms only, and it is read behind its opening. */
  lemma Openings(middle: string)
    ensures !(EXITED <= SIGNALED + middle)
    ensures forall opening: string :: var s := opening + middle + "}";
              s[|s| - 1] == '}' && s[..|s| - 1] == opening + middle && (opening + middle)[|opening|..] == middle
  {
    assert EXITED[11] == 'e' && (SIGNALED + middle)[11] == 's';
  }

  lemma AllAscii(middle: string)
    requires IsAscii(middle)
    ensures IsAscii(EXITED + middle + "}") && IsAscii(SIGNALED + middle + "}")
  {
    AsciiOpenings();
    hide EXITED, SIGNALED;
  }

  lemma AsciiOpenings()
    ensures IsAscii(EXITED) && IsAscii(SIGNALED)
  {
  }

  lemma CharactersBack(s: string)
    requires IsAscii(s)
    ensures Characters(Bytes(s)) == s && |Bytes(s)| == |s|
  {
  }

  lemma JsonReads(status: Status)
    ensures IsAscii(Json(status)) && ReadStatus(Bytes(Json(status))) == Some(status)
    ensures 0 < |Json(status)| <= MAX_PAYLOAD_LEN
  {
    hide Signed, ReadCode, Characters, Bytes, IsAscii;
    var code := if status.Exited? then status.exitCode else status.signal;
    SignedReads(code);
    Openings(Signed(code));
    AllAscii(Signed(code));
    CharactersBack(Json(status));
  }

  function Payload(status: Status): seq<byte> {
    JsonReads(status);
    Bytes(Json(status))
  }

  /** What the server writes for a status is never empty and within the limit, and the
      status is read back from it. */
  lemma JsonIsValid()
    ensures Codec(Payload, ReadStatus).Valid()
  {
    hide Json, ReadStatus, Characters, Bytes;
    forall s: Status ensures ReadStatus(Payload(s)) == Some(s) && 0 < |Payload(s)| <= MAX_PAYLOAD_LEN {
      JsonReads(s);
      CharactersBack(Json(s));
    }
  }
}
