/**
 The framing of qemud.h: a message is sent as four hexadecimal digits of its length and its bytes,
 over a byte stream that loses nothing, but may interrupt a transfer, fail it, or cut it short.
 */
module Qemud {
  import opened Bits
  import opened Sequences
  import opened Wrappers

  /** A channel: the bytes sent and not yet received. */
  class Channel {
    var bytes: seq<Byte>

    constructor ()
      ensures bytes == []
    {
      bytes := [];
    }
  }

  // ---- The header.

  /** The character of a hexadecimal digit. */
  function DigitChar(d: nat): Byte
    requires d < 16
  {
    if d < 10 then 48 + d else 87 + d
  }

  /** The digit of a character, 16 if it is none. */
  function DigitValue(c: Byte): nat {
    if 48 <= c < 58 then c - 48
    else if 65 <= c < 71 then c - 55
    else if 97 <= c < 103 then c - 87
    else 16
  }

  /** `%x` */
  function Hex(n: nat): (digits: seq<Byte>)
    ensures |digits| >= 1
  {
    if n < 16 then [DigitChar(n)] else Hex(n / 16) + [DigitChar(n % 16)]
  }

  /** `%0<k>x` */
  function Padded(n: nat, k: nat): (digits: seq<Byte>)
    ensures |digits| >= k
  {
    seq(if |Hex(n)| < k then k - |Hex(n)| else 0, i => 48) + Hex(n)
  }

  /** snprintf into five characters: the first four digits. */
  function Header(n: nat): (header: seq<Byte>)
    ensures |header| == 4
  {
    Padded(n, 4)[..4]
  }

  /** The number that the leading digits of a text stand for. */
  function Value(text: seq<Byte>): nat {
    if text == [] then 0 else 16 * Value(Front(text)) + DigitValue(Last(text))
  }

  /** The digits at the start of a text. */
  function Digits(text: seq<Byte>): (digits: seq<Byte>)
    ensures digits <= text
  {
    if text == [] || DigitValue(text[0]) == 16 then [] else [text[0]] + Digits(text[1..])
  }

  /** A blank, as isspace has it. */
  predicate IsBlank(c: Byte) {
    c == 32 || 9 <= c <= 13
  }

  function SkipBlanks(text: seq<Byte>): (rest: seq<Byte>)
    ensures |rest| <= |text|
  {
    if text != [] && IsBlank(text[0]) then SkipBlanks(text[1..]) else text
  }

  /** The digits after an optional `0x`. */
  function SkipPrefix(text: seq<Byte>): seq<Byte> {
    if |text| >= 2 && text[0] == 48 && (text[1] == 120 || text[1] == 88) then text[2..] else text
  }

  /**
   sscanf with `%04x` on the header (section 7.21.6.2 of ISO C11): blanks, an optional sign, an
   optional `0x`, and at least one digit.
   */
  function Scan(header: seq<Byte>): Option<int> {
    ScanSigned(SkipBlanks(header))
  }

  function ScanSigned(text: seq<Byte>): Option<int> {
    if text == [] then None
    else if text[0] == 45 then Negated(ScanDigits(text[1..]))
    else ScanDigits(if text[0] == 43 then text[1..] else text)
  }

  function ScanDigits(text: seq<Byte>): Option<int> {
    var digits := Digits(SkipPrefix(text));
    if digits == [] then None else Some(Value(digits))
  }

  function Negated(n: Option<int>): Option<int> {
    match n
    case None => None
    case Some(value) => Some(-value)
  }

  /** Plain digits are scanned as they are. */
  lemma ScanOfDigits(text: seq<Byte>)
    requires AllDigits(text) && text != []
    ensures Scan(text) == Some(Value(text))
  {
    assert DigitValue(text[0]) < 16;
    if |text| >= 2 {
      assert DigitValue(text[1]) < 16;
    }
    DigitsOfDigits(text);
  }

  /** The header "-001" is scanned as -1. */
  lemma ScanOfMinusOne(header: seq<Byte>)
    requires header == [45, 48, 48, 49]
    ensures Scan(header) == Some(-1)
  {
    var digits := header[1..];
    assert AllDigits(digits);
    DigitsOfDigits(digits);
    assert SkipBlanks(header) == header && SkipPrefix(digits) == digits;
    var tens := Front(digits);
    assert Value([]) == 0 && Front(Front(tens)) == [];
    assert Value(Front(tens)) == 16 * Value([]);
    assert Value(tens) == 16 * Value(Front(tens));
  }

  predicate AllDigits(text: seq<Byte>) {
    forall i | 0 <= i < |text| :: DigitValue(text[i]) < 16
  }

  lemma {:induction false} DigitsOfDigits(text: seq<Byte>)
    requires AllDigits(text)
    ensures Digits(text) == text
  {
    if text != [] {
      DigitsOfDigits(text[1..]);
    }
  }

  lemma {:induction false} HexValue(n: nat)
    ensures AllDigits(Hex(n)) && Value(Hex(n)) == n
  {
    if n >= 16 {
      HexValue(n / 16);
      Append(Hex(n / 16), DigitChar(n % 16));
    }
  }

  lemma {:induction false} LeadingZeros(k: nat, text: seq<Byte>)
    ensures Value(seq(k, i => 48) + text) == Value(text)
    decreases |text|, k
  {
    var zeros := seq(k, i => 48);
    if text != [] {
      LeadingZeros(k, Front(text));
      assert Front(zeros + text) == zeros + Front(text);
    } else if k > 0 {
      LeadingZeros(k - 1, []);
      assert Front(zeros + []) == seq(k - 1, i => 48) + [];
    }
  }

  /** At most `k` digits stand for numbers below 16^k, and more than `k` digits for others. */
  lemma {:induction false} HexLength(n: nat, k: nat)
    requires k > 0
    ensures |Hex(n)| <= k <==> n < Pow16(k)
  {
    if k == 1 {
      assert Pow16(1) == 16 * Pow16(0);
    } else if n >= 16 {
      HexLength(n / 16, k - 1);
    } else {
      Pow16Grows(k - 1);
    }
  }

  function Pow16(k: nat): nat {
    if k == 0 then 1 else 16 * Pow16(k - 1)
  }

  lemma {:induction false} Pow16Grows(k: nat)
    ensures Pow16(k) >= 1
  {
    if k > 0 {
      Pow16Grows(k - 1);
    }
  }

  lemma FourDigits()
    ensures Pow16(4) == 65536
  {
    assert Pow16(4) == 16 * Pow16(3) && Pow16(3) == 16 * Pow16(2) && Pow16(2) == 16 * Pow16(1) && Pow16(1) == 16 * Pow16(0);
  }

  /** The header holds the length exactly for messages of up to 65535 bytes. */
  lemma HeaderHoldsLength(n: nat)
    ensures Scan(Header(n)) == Some(n) <==> n < 65536
  {
    HexValue(n);
    HexLength(n, 4);
    FourDigits();
    var text := Padded(n, 4);
    if |Hex(n)| <= 4 {
      assert text[..4] == text;
      ScanOfDigits(text);
      LeadingZeros(4 - |Hex(n)|, Hex(n));
    } else {
      var cut := Hex(n)[..4];
      assert Header(n) == cut;
      ScanOfDigits(cut);
      ValueBelow(cut);
    }
  }

  /** The header is four lower-case hexadecimal characters. */
  lemma HeaderCharacters(n: nat)
    ensures forall c | c in Header(n) :: 48 <= c <= 57 || 97 <= c <= 102
  {
    HexCharacters(n);
    forall c | c in Header(n)
      ensures 48 <= c <= 57 || 97 <= c <= 102
    {
      assert c in Padded(n, 4);
    }
  }

  lemma {:induction false} HexCharacters(n: nat)
    ensures forall c | c in Hex(n) :: 48 <= c <= 57 || 97 <= c <= 102
  {
    if n >= 16 {
      HexCharacters(n / 16);
    }
  }

  /** The length 0x1a2b is written as "1a2b", the length 7 as "0007". */
  lemma HeaderExamples(long: nat, short: nat)
    requires long == 0x1a2b && short == 7
    ensures Header(long) == [49, 97, 50, 98] && Header(short) == [48, 48, 48, 55]
  {
    assert Hex(1) == [49] && Hex(0x1a) == Hex(1) + [97] && Hex(0x1a2) == Hex(0x1a) + [50];
    assert Hex(long) == Hex(0x1a2) + [98];
    assert Hex(short) == [55];
  }

  /** The characters of digits, in either case. */
  lemma DigitCharacters(c: Byte, d: nat)
    requires d < 16
    ensures DigitValue(c) == d <==> if d < 10 then c == 48 + d else c == 65 + (d - 10) || c == 97 + (d - 10)
  {
  }

  predicate AllBlank(text: seq<Byte>) {
    forall i | 0 <= i < |text| :: text[i] == 32 || 9 <= text[i] <= 13
  }

  /** A number without sign: an optional `0x`, digits, and nothing that goes on with them. */
  predicate SpellsNumber(text: seq<Byte>, prefix: seq<Byte>, digits: seq<Byte>, junk: seq<Byte>) {
    && text == prefix + (digits + junk)
    && (prefix == [] || prefix == [48, 120] || prefix == [48, 88])
    && digits != [] && AllDigits(digits) && (junk == [] || DigitValue(junk[0]) == 16)
    && (prefix == [] && digits == [48] && junk != [] ==> junk[0] != 120 && junk[0] != 88)
  }

  /** A header spells a number: blanks, an optional sign, and the number. */
  predicate Spells(header: seq<Byte>, blanks: seq<Byte>, sign: seq<Byte>, number: seq<Byte>) {
    header == blanks + (sign + number) && AllBlank(blanks) && (sign == [] || sign == [43] || sign == [45])
  }

  function Signed(sign: seq<Byte>, n: nat): int {
    if sign == [45] then 0 - n else n
  }

  /** Exactly the headers that spell a number are scanned, as that number. */
  lemma ScanExactly(header: seq<Byte>, n: int)
    ensures Scan(header) == Some(n) <==>
            exists blanks, sign, number, prefix, digits, junk ::
              && Spells(header, blanks, sign, number) && SpellsNumber(number, prefix, digits, junk)
              && n == Signed(sign, Value(digits))
  {
    if Scan(header) == Some(n) {
      var blanks, sign, number := Spelling(header);
      var prefix, digits, junk := SpellingOfNumber(number);
    }
    forall blanks, sign, number, prefix, digits, junk | Spells(header, blanks, sign, number) && SpellsNumber(number, prefix, digits, junk)
      ensures Scan(header) == Some(Signed(sign, Value(digits)))
    {
      SpelledIsScanned(header, blanks, sign, number, prefix, digits, junk);
    }
  }

  lemma SpelledIsScanned(header: seq<Byte>, blanks: seq<Byte>, sign: seq<Byte>, number: seq<Byte>,
                         prefix: seq<Byte>, digits: seq<Byte>, junk: seq<Byte>)
    requires Spells(header, blanks, sign, number) && SpellsNumber(number, prefix, digits, junk)
    ensures Scan(header) == Some(Signed(sign, Value(digits)))
  {
    ScanOfNumber(number, prefix, digits, junk);
    ScanOfSpelled(header, blanks, sign, number);
  }

  /** Blanks and a sign in front of a number, which starts with a digit. */
  lemma ScanOfSpelled(header: seq<Byte>, blanks: seq<Byte>, sign: seq<Byte>, number: seq<Byte>)
    requires Spells(header, blanks, sign, number) && number != [] && DigitValue(number[0]) < 16
    ensures Scan(header) == if sign == [45] then Negated(ScanDigits(number)) else ScanDigits(number)
  {
    var text := sign + number;
    assert text[0] == if sign == [] then number[0] else sign[0];
    assert text[|sign|..] == number;
    BlanksSkipped(blanks, text);
  }

  lemma {:induction false} BlanksSkipped(blanks: seq<Byte>, rest: seq<Byte>)
    requires AllBlank(blanks) && (rest == [] || !IsBlank(rest[0]))
    ensures SkipBlanks(blanks + rest) == rest
  {
    if blanks == [] {
      assert blanks + rest == rest;
    } else {
      assert (blanks + rest)[1..] == blanks[1..] + rest;
      BlanksSkipped(blanks[1..], rest);
    }
  }

  lemma ScanOfNumber(text: seq<Byte>, prefix: seq<Byte>, digits: seq<Byte>, junk: seq<Byte>)
    requires SpellsNumber(text, prefix, digits, junk)
    ensures ScanDigits(text) == Some(Value(digits)) && DigitValue(text[0]) < 16
  {
    LeadingDigits(digits, junk);
    if prefix == [] {
      NoPrefix(text, digits, junk);
    } else {
      assert text[2..] == digits + junk;
    }
  }

  lemma NoPrefix(text: seq<Byte>, digits: seq<Byte>, junk: seq<Byte>)
    requires SpellsNumber(text, [], digits, junk)
    ensures text == digits + junk && SkipPrefix(text) == text && DigitValue(text[0]) < 16
  {
    assert text == digits + junk;
    if |digits| >= 2 {
      assert text[1] == digits[1];
    } else if text[0] == 48 && |text| >= 2 {
      assert digits == [48] && text[1] == junk[0];
    }
  }

  lemma {:induction false} LeadingDigits(digits: seq<Byte>, junk: seq<Byte>)
    requires AllDigits(digits) && (junk == [] || DigitValue(junk[0]) == 16)
    ensures Digits(digits + junk) == digits
  {
    if digits == [] {
      assert digits + junk == junk;
    } else {
      assert (digits + junk)[1..] == digits[1..] + junk;
      LeadingDigits(digits[1..], junk);
    }
  }

  /** How a scanned header spells its number. */
  lemma Spelling(header: seq<Byte>) returns (blanks: seq<Byte>, sign: seq<Byte>, number: seq<Byte>)
    requires Scan(header).Some?
    ensures Spells(header, blanks, sign, number)
    ensures Scan(header) == if sign == [45] then Negated(ScanDigits(number)) else ScanDigits(number)
  {
    blanks := LeadingBlanks(header);
    sign, number := SignSplit(SkipBlanks(header));
  }

  lemma SignSplit(text: seq<Byte>) returns (sign: seq<Byte>, number: seq<Byte>)
    requires text != []
    ensures text == sign + number && (sign == [] || sign == [43] || sign == [45])
    ensures ScanSigned(text) == if sign == [45] then Negated(ScanDigits(number)) else ScanDigits(number)
  {
    if text[0] == 45 || text[0] == 43 {
      sign, number := [text[0]], text[1..];
    } else {
      sign, number := [], text;
    }
  }

  lemma {:induction false} LeadingBlanks(text: seq<Byte>) returns (blanks: seq<Byte>)
    ensures AllBlank(blanks) && text == blanks + SkipBlanks(text)
  {
    if text == [] || !IsBlank(text[0]) {
      return [];
    }
    var rest := text[1..];
    blanks := LeadingBlanks(rest);
    OneMoreBlank(text, rest, blanks);
    blanks := [text[0]] + blanks;
  }

  lemma OneMoreBlank(text: seq<Byte>, rest: seq<Byte>, blanks: seq<Byte>)
    requires text != [] && IsBlank(text[0]) && rest == text[1..] && AllBlank(blanks) && rest == blanks + SkipBlanks(rest)
    ensures AllBlank([text[0]] + blanks) && text == [text[0]] + blanks + SkipBlanks(text)
  {
    assert text == [text[0]] + rest;
  }

  lemma SpellingOfNumber(text: seq<Byte>) returns (prefix: seq<Byte>, digits: seq<Byte>, junk: seq<Byte>)
    requires ScanDigits(text).Some?
    ensures SpellsNumber(text, prefix, digits, junk) && ScanDigits(text) == Some(Value(digits))
  {
    var rest := SkipPrefix(text);
    prefix := if rest == text then [] else text[..2];
    PrefixSplit(text, prefix, rest);
    digits := Digits(rest);
    junk := rest[|digits|..];
    DigitsEnd(rest);
    assert rest == digits + junk;
    if prefix == [] && digits == [48] && junk != [] {
      NoPrefixThere(text, junk);
    }
  }

  lemma PrefixSplit(text: seq<Byte>, prefix: seq<Byte>, rest: seq<Byte>)
    requires rest == SkipPrefix(text) && prefix == if rest == text then [] else text[..if |text| < 2 then 0 else 2]
    ensures text == prefix + rest && (prefix == [] || prefix == [48, 120] || prefix == [48, 88])
    ensures prefix == [] ==> SkipPrefix(text) == text
  {
    if prefix != [] {
      assert |text| >= 2 && prefix == [text[0], text[1]];
    }
  }

  lemma NoPrefixThere(text: seq<Byte>, junk: seq<Byte>)
    requires SkipPrefix(text) == text && text == [48] + junk && junk != []
    ensures junk[0] != 120 && junk[0] != 88
  {
    assert text[1] == junk[0] && |text[2..]| < |text|;
  }

  lemma {:induction false} DigitsEnd(text: seq<Byte>)
    ensures var digits := Digits(text);
            && AllDigits(digits) && digits <= text
            && (|digits| == |text| || DigitValue(text[|digits|]) == 16)
  {
    if text != [] && DigitValue(text[0]) != 16 {
      DigitsEnd(text[1..]);
    }
  }

  lemma {:induction false} ValueBelow(text: seq<Byte>)
    requires AllDigits(text)
    ensures Value(text) < Pow16(|text|)
  {
    if text != [] {
      ValueBelow(Front(text));
    }
  }

  // ---- Messages.

  type Message = seq<Byte>

  /** What sending a message puts on the stream; an empty one puts nothing. */
  function Frame(msg: Message): seq<Byte> {
    if msg == [] then [] else Header(|msg|) + msg
  }

  /**
   The outcome of a receive call: the message, or none for the answer -1; the bytes it leaves on the
   stream; and how many bytes it has stored in the caller's buffer.
   */
  datatype Received = Received(msg: Option<Message>, rest: seq<Byte>, stored: nat)

  /** One receive call with room for `room` bytes on what the stream holds. */
  function Receive(bytes: seq<Byte>, room: nat): Received {
    if |bytes| < 4 then Received(None, [], 0)
    else
      match Scan(bytes[..4])
      case None => Received(None, bytes[4..], 0)
      case Some(size) =>
        if size > room then Received(None, bytes[4..], 0)
        else if size < 0 || |bytes| - 4 < size then Received(None, [], |bytes| - 4)
        else Received(Some(bytes[4..4 + size]), bytes[4 + size..], size)
  }

  /** A message that was sent is received, and nothing after it is touched, exactly if its length fits the header. */
  lemma SentIsReceived(msg: Message, rest: seq<Byte>, room: nat)
    requires msg != [] && |msg| <= room
    ensures Receive(Frame(msg) + rest, room) == Received(Some(msg), rest, |msg|) <==> |msg| < 65536
  {
    HeaderHoldsLength(|msg|);
    var bytes := Frame(msg) + rest;
    assert bytes[..4] == Header(|msg|);
    assert bytes[4..4 + |msg|] == msg;
    assert bytes[4 + |msg|..] == rest;
  }

  /** What is on the stream after a series of messages. */
  function Frames(msgs: seq<Message>): seq<Byte> {
    if msgs == [] then [] else Frame(msgs[0]) + Frames(msgs[1..])
  }

  /** The answers of `n` receive calls. */
  function ReceiveMany(bytes: seq<Byte>, room: nat, n: nat): seq<Option<Message>>
    decreases n
  {
    if n == 0 then []
    else
      var r := Receive(bytes, room);
      [r.msg] + ReceiveMany(r.rest, room, n - 1)
  }

  function Delivered(msgs: seq<Message>): (answers: seq<Option<Message>>)
    ensures |answers| == |msgs|
  {
    seq(|msgs|, i requires 0 <= i < |msgs| => Some(msgs[i]))
  }

  /** Repeated receive calls return the messages sent, in order, whatever follows them. */
  lemma {:induction false} RoundTrip(msgs: seq<Message>, rest: seq<Byte>, room: nat)
    requires forall i | 0 <= i < |msgs| :: 1 <= |msgs[i]| <= 65535 && |msgs[i]| <= room
    ensures ReceiveMany(Frames(msgs) + rest, room, |msgs|) == Delivered(msgs)
  {
    if msgs != [] {
      var later := msgs[1..];
      FirstFrame(msgs, later, rest);
      FirstReceived(Frames(msgs) + rest, msgs[0], Frames(later) + rest, room, |later|);
      RoundTrip(later, rest, room);
      FirstDelivered(msgs, later);
    }
  }

  lemma FirstFrame(msgs: seq<Message>, later: seq<Message>, rest: seq<Byte>)
    requires msgs != [] && later == msgs[1..]
    ensures Frames(msgs) + rest == Frame(msgs[0]) + (Frames(later) + rest)
  {
  }

  lemma FirstReceived(bytes: seq<Byte>, msg: Message, later: seq<Byte>, room: nat, n: nat)
    requires 1 <= |msg| <= 65535 && |msg| <= room && bytes == Frame(msg) + later
    ensures ReceiveMany(bytes, room, n + 1) == [Some(msg)] + ReceiveMany(later, room, n)
  {
    SentIsReceived(msg, later, room);
  }

  lemma FirstDelivered(msgs: seq<Message>, later: seq<Message>)
    requires msgs != [] && later == msgs[1..]
    ensures Delivered(msgs) == [Some(msgs[0])] + Delivered(later)
  {
  }

  // ---- The calls.

  /** How a read or write goes: interrupted so many times, then failing, or transferring at most `limit` bytes. */
  datatype Transfer = Transfer(interrupts: nat, fails: bool, limit: nat)

  /** The transfer of `len` bytes is completed. */
  predicate Completes(t: Transfer, len: nat) {
    !t.fails && t.limit >= len
  }

  /** The bytes that a transfer moves of those that are there. */
  function Moved(bytes: seq<Byte>, len: nat, t: Transfer): (moved: seq<Byte>)
    ensures |moved| <= len && moved <= bytes
  {
    var n := if len <= t.limit then len else t.limit;
    if t.fails then [] else bytes[..if n <= |bytes| then n else |bytes|]
  }

  /** qemud_fd_write. */
  method Write(fd: Channel, buff: seq<Byte>, t: Transfer) returns (written: int)
    modifies fd
    ensures fd.bytes == old(fd.bytes) + Moved(buff, |buff|, t)
    ensures written == if t.fails then -1 else |Moved(buff, |buff|, t)|
  {
    var left, interrupted := t.interrupts, true;
    written := -1;
    while written < 0 && interrupted
      invariant if interrupted then written == -1 && fd.bytes == old(fd.bytes)
                else fd.bytes == old(fd.bytes) + Moved(buff, |buff|, t) && written == if t.fails then -1 else |Moved(buff, |buff|, t)|
      decreases left, interrupted
    {
      if left > 0 {
        left := left - 1;
      } else {
        interrupted := false;
        fd.bytes := fd.bytes + Moved(buff, |buff|, t);
        written := if t.fails then -1 else |Moved(buff, |buff|, t)|;
      }
    }
  }

  /** The bytes that a read asks for: a negative length becomes an enormous size_t. */
  function Wanted(len: int, available: nat): nat {
    if len < 0 then available else len
  }

  /** qemud_fd_read: gets what there is, up to `len` bytes; `count` is -1 for a failure. */
  method Read(fd: Channel, len: int, t: Transfer) returns (count: int, got: seq<Byte>)
    modifies fd
    ensures got == Moved(old(fd.bytes), Wanted(len, |old(fd.bytes)|), t) && old(fd.bytes) == got + fd.bytes
    ensures count == if t.fails then -1 else |got|
  {
    var left, interrupted := t.interrupts, true;
    count, got := -1, [];
    while count < 0 && interrupted
      invariant if interrupted then count == -1 && fd.bytes == old(fd.bytes)
                else got == Moved(old(fd.bytes), Wanted(len, |old(fd.bytes)|), t) && old(fd.bytes) == got + fd.bytes
                     && count == if t.fails then -1 else |got|
      decreases left, interrupted
    {
      if left > 0 {
        left := left - 1;
      } else {
        interrupted := false;
        got := Moved(fd.bytes, Wanted(len, |fd.bytes|), t);
        fd.bytes := fd.bytes[|got|..];
        count := if t.fails then -1 else |got|;
      }
    }
  }

  /** strlen: the bytes before the first zero. */
  function Text(buffer: seq<Byte>): (text: seq<Byte>)
    requires 0 in buffer
    ensures text < buffer && 0 !in text && buffer[|text|] == 0
  {
    if buffer[0] == 0 then [] else [buffer[0]] + Text(buffer[1..])
  }

  /** The message that a send call is asked for: a negative length stands for a zero-terminated text. */
  function Asked(buffer: seq<Byte>, len: int): Message
    requires if len < 0 then 0 in buffer else len <= |buffer|
  {
    if len < 0 then Text(buffer) else buffer[..len]
  }

  /** `n` is the length of the zero-terminated text in a buffer. */
  predicate TextLength(buffer: seq<Byte>, n: nat) {
    n < |buffer| && buffer[n] == 0 && forall i | 0 <= i < n :: buffer[i] != 0
  }

  lemma AskedIs(buffer: seq<Byte>, len: int)
    requires if len < 0 then 0 in buffer else len <= |buffer|
    ensures len >= 0 ==> Asked(buffer, len) == buffer[..len]
    ensures len < 0 ==> forall n: nat | TextLength(buffer, n) :: Asked(buffer, len) == buffer[..n]
  {
    if len < 0 {
      var text := Text(buffer);
      assert forall i | 0 <= i < |text| :: text[i] == buffer[i];
      assert TextLength(buffer, |text|);
    }
  }

  lemma WholePut(msg: Message, header: Transfer, payload: Transfer)
    requires Completes(header, 4) && Completes(payload, |msg|)
    ensures Put(msg, header, payload) == if |msg| == 0 then [] else Header(|msg|) + msg
  {
  }

  /** What a send call puts on the stream: the header, as far as it goes, and then the message likewise. */
  function Put(msg: Message, header: Transfer, payload: Transfer): seq<Byte> {
    if msg == [] then []
    else
      Moved(Header(|msg|), 4, header) + (if Completes(header, 4) then Moved(msg, |msg|, payload) else [])
  }

  /** qemud_channel_send. */
  method Send(fd: Channel, buffer: seq<Byte>, len: int, header: Transfer, payload: Transfer) returns (status: int)
    requires if len < 0 then 0 in buffer else len <= |buffer|
    modifies fd
    ensures len == 0 ==> status == 0 && fd.bytes == old(fd.bytes)
    ensures len > 0 && Completes(header, 4) && Completes(payload, len) ==>
              status == 0 && fd.bytes == old(fd.bytes) + Header(len) + buffer[..len]
    ensures forall n: nat | len < 0 && TextLength(buffer, n) && Completes(header, 4) && Completes(payload, n) ::
              status == 0 && fd.bytes == old(fd.bytes) + if n == 0 then [] else Header(n) + buffer[..n]
    ensures var msg := Asked(buffer, len);
            && fd.bytes == old(fd.bytes) + Put(msg, header, payload)
            && (status == 0 || status == -1)
            && (status == 0 <==> msg == [] || (Completes(header, 4) && Completes(payload, |msg|)))
  {
    var msg := Asked(buffer, len);
    AskedIs(buffer, len);
    if |msg| == 0 {
      return 0;
    }
    var written := Write(fd, Header(|msg|), header);
    if written != 4 {
      return -1;
    }
    written := Write(fd, msg, payload);
    if written != |msg| {
      return -1;
    }
    WholePut(msg, header, payload);
    return 0;
  }

  /** A send call succeeds exactly if the whole frame of the message is on the stream. */
  lemma SentWhole(msg: Message, header: Transfer, payload: Transfer)
    ensures Put(msg, header, payload) <= Frame(msg)
    ensures Put(msg, header, payload) == Frame(msg) <==> msg == [] || (Completes(header, 4) && Completes(payload, |msg|))
  {
    if msg != [] {
      var h, p := Moved(Header(|msg|), 4, header), Moved(msg, |msg|, payload);
      assert Completes(header, 4) <==> |h| == 4;
      assert Completes(payload, |msg|) <==> |p| == |msg|;
    }
  }

  /** One receive call with room for `room` bytes whose transfers may fail or be cut short. */
  function ReceiveWith(bytes: seq<Byte>, room: nat, header: Transfer, payload: Transfer): Received {
    var h := Moved(bytes, 4, header);
    var rest := bytes[|h|..];
    if |h| < 4 then Received(None, rest, 0)
    else
      match Scan(h)
      case None => Received(None, rest, 0)
      case Some(size) =>
        if size > room then Received(None, rest, 0)
        else
          var got := Moved(rest, Wanted(size, |rest|), payload);
          Received(if size < 0 || payload.fails || |got| < size then None else Some(got), rest[|got|..], |got|)
  }

  predicate NegativeSize(header: seq<Byte>) {
    Scan(header).Some? && Scan(header).value < 0
  }

  /** Transfers that complete receive what is there. */
  lemma CompleteTransfers(bytes: seq<Byte>, room: nat, header: Transfer, payload: Transfer)
    requires Completes(header, 4) && Completes(payload, room)
    requires |bytes| >= 4 && NegativeSize(bytes[..4]) ==> Completes(payload, |bytes|)
    ensures ReceiveWith(bytes, room, header, payload) == Receive(bytes, room)
  {
    if |bytes| >= 4 {
      assert Moved(bytes, 4, header) == bytes[..4];
      var rest := bytes[4..];
      if Scan(bytes[..4]).Some? && 0 <= Scan(bytes[..4]).value <= room {
        var size := Scan(bytes[..4]).value;
        assert |rest| >= size ==> rest[..size] == bytes[4..4 + size] && rest[size..] == bytes[4 + size..];
      }
    }
  }

  /** Whatever follows the header on the stream, at most `room` bytes are stored. */
  ghost predicate StoresWithinRoom(header: seq<Byte>, room: nat) {
    forall rest: seq<Byte>, h: Transfer, p: Transfer :: ReceiveWith(header + rest, room, h, p).stored <= room
  }

  /** A receive call keeps to the caller's room exactly if the scanned size is not negative. */
  lemma RoomKeptExactly(header: seq<Byte>, room: nat)
    requires |header| == 4
    ensures StoresWithinRoom(header, room) <==> !NegativeSize(header)
  {
    if NegativeSize(header) {
      var rest := seq(room + 1, i => 0 as Byte);
      var whole := Transfer(0, false, room + 5);
      assert Moved(header + rest, 4, whole) == header;
      assert (header + rest)[4..] == rest;
      assert ReceiveWith(header + rest, room, whole, whole).stored == room + 1;
    } else {
      forall rest: seq<Byte>, h: Transfer, p: Transfer
        ensures ReceiveWith(header + rest, room, h, p).stored <= room
      {
        if |Moved(header + rest, 4, h)| == 4 {
          assert Moved(header + rest, 4, h) == header;
        }
      }
    }
  }

  /** No header that a send call writes has a negative size. */
  lemma SentSizes(n: nat)
    ensures Scan(Header(n)).Some? && Scan(Header(n)).value >= 0
  {
    HexValue(n);
    assert AllDigits(Header(n));
    ScanOfDigits(Header(n));
  }

  /** qemud_channel_recv. */
  method Recv(fd: Channel, room: nat, header: Transfer, payload: Transfer) returns (size: int, msg: Message)
    modifies fd
    ensures var r := ReceiveWith(old(fd.bytes), room, header, payload);
            && fd.bytes == r.rest
            && if r.msg.Some? then size == |msg| && msg == r.msg.value else size == -1
  {
    msg := [];
    var count, h := Read(fd, 4, header);
    if count != 4 {
      return -1, msg;
    }
    var scanned := Scan(h);
    if scanned.None? {
      return -1, msg;
    }
    if scanned.value > room {
      return -1, msg;
    }
    count, msg := Read(fd, scanned.value, payload);
    if count != scanned.value {
      return -1, msg;
    }
    return count, msg;
  }
}
