/** Typed values: validateParamValue, and the two pairs of routines that move a
    value between its text and the 4096-byte buffer of a message. */
module ValueCodec {
  import opened Common
  import opened CText

  /** The types getHostIfParamType can yield. */
  datatype ParamType = StringType | IntegerType | UnsignedIntType | BooleanType | DateTimeType

  /** LONG_MAX of the platform: 32-bit or 64-bit long. */
  predicate IsLongMax(longMax: int) {
    longMax == INT_MAX || longMax == 0x7FFF_FFFF_FFFF_FFFF
  }

  lemma LongMaxIff(longMax: int)
    ensures IsLongMax(longMax) <==> longMax + 1 == 0x8000_0000 || longMax + 1 == 0x8000_0000 * 0x1_0000_0000
  {
  }

  // ----------------------------------------------------------------- conversions

  function Clamp(v: int, lo: int, hi: int): int {
    if v < lo then lo else if v > hi then hi else v
  }

  /** atoi and string_to_int: strtol, which stops at the ends of long, cut to int. */
  function Atoi(s: string, longMax: int): int {
    AsInt32(Clamp(ScanInteger(s).value, -longMax - 1, longMax))
  }

  /** string_to_uint: strtoul cut to 32 bits. A sign negates modulo 2^32; a number
      too long for unsigned long gives its greatest value, with either sign. */
  function Atou(s: string, longMax: int): (r: int)
    ensures 0 <= r < 0x1_0000_0000
  {
    var v := ScanInteger(s).value;
    if -2 * longMax - 1 <= v <= 2 * longMax + 1 then v % 0x1_0000_0000 else 0xFFFF_FFFF
  }

  // --------------------------------------------------------------------- buffers

  type Buffer = b: seq<char> | |b| == MAX_PARAM_LEN witness seq(MAX_PARAM_LEN, _ => '\0')

  /** memset to zero, then bytes written at the front. */
  function Padded(bytes: seq<char>): (b: Buffer)
    requires |bytes| <= MAX_PARAM_LEN
    ensures b[..|bytes|] == bytes
    ensures forall i :: |bytes| <= i < MAX_PARAM_LEN ==> b[i] == '\0'
  {
    bytes + seq(MAX_PARAM_LEN - |bytes|, _ => '\0')
  }

  function Byte(n: int): (c: char)
    requires 0 <= n < 256
    ensures c as int == n
  {
    n as char
  }

  /** The four bytes of a 32-bit number, lowest first. */
  function WordBytes(v: int): (bytes: seq<char>)
    ensures |bytes| == 4
  {
    var w0 := v % 0x1_0000_0000;
    var w1 := w0 / 256;
    var w2 := w1 / 256;
    [Byte(w0 % 256), Byte(w1 % 256), Byte(w2 % 256), Byte(w2 / 256)]
  }

  /** get_uint */
  function ReadUint(b: seq<char>): int
    requires |b| >= 4
  {
    b[0] as int + 256 * (b[1] as int + 256 * (b[2] as int + 256 * b[3] as int))
  }

  /** get_int */
  function ReadInt(b: seq<char>): int
    requires |b| >= 4
  {
    AsInt32(ReadUint(b))
  }

  lemma WordRoundTrip(v: int)
    ensures ReadUint(Padded(WordBytes(v))) == v % 0x1_0000_0000
    ensures INT_MIN <= v <= INT_MAX ==> ReadInt(Padded(WordBytes(v))) == v
  {
    var bytes, b := WordBytes(v), Padded(WordBytes(v));
    assert forall i :: 0 <= i < 4 ==> b[i] == b[..4][i] == bytes[i];
    WordValue(v);
  }

  lemma WordValue(v: int)
    ensures ReadUint(WordBytes(v)) == v % 0x1_0000_0000
  {
    var w0 := v % 0x1_0000_0000;
    var w1 := w0 / 256;
    var w2 := w1 / 256;
    assert w0 == w0 % 256 + 256 * w1;
    assert w1 == w1 % 256 + 256 * w2;
    assert w2 == w2 % 256 + 256 * (w2 / 256);
  }

  lemma {:induction false} TextOfPadded(s: string, zeros: seq<char>)
    requires '\0' !in s && (zeros == [] || zeros[0] == '\0')
    ensures UpToNul(s + zeros) == s
  {
    if s == [] {
      assert s + zeros == zeros;
    } else {
      assert (s + zeros)[1..] == s[1..] + zeros;
      TextOfPadded(s[1..], zeros);
    }
  }

  // ----------------------------------------------- request_handler.cpp: the codec

  predicate StartsWithDigit(v: string) {
    v != "" && IsDigit(v[0])
  }

  /** What convertAndAssignParamValue takes for true. */
  predicate Truthy(v: string) {
    (|v| >= 4 && EqualIgnoringCase(v[..4], "true")) || (StartsWithDigit(v) && v[0] != '0')
  }

  /** convertAndAssignParamValue, into a zeroed buffer. */
  function Encode(t: ParamType, v: string, longMax: int): Buffer {
    match t
    case StringType => Padded(Truncated(v))
    case DateTimeType => Padded(Truncated(v))
    case IntegerType => Padded(WordBytes(Atoi(v, longMax)))
    case UnsignedIntType => Padded(WordBytes(Atoi(v, longMax)))
    case BooleanType => Padded([if Truthy(v) then Byte(1) else '\0'])
  }

  /** snprintf keeps room for the terminator. */
  function Truncated(v: string): (r: string)
    ensures |r| < MAX_PARAM_LEN && r <= v
    ensures r == v <==> |v| < MAX_PARAM_LEN
  {
    if |v| < MAX_PARAM_LEN then v else v[..MAX_PARAM_LEN - 1]
  }

  /** getStringValue of the request handler. */
  function Decode(t: ParamType, b: Buffer): string {
    match t
    case StringType => UpToNul(b)
    case DateTimeType => UpToNul(b)
    case IntegerType => IntText(ReadInt(b))
    case UnsignedIntType => IntText(ReadInt(b))
    case BooleanType => if b[0] != '\0' then "true" else "false"
  }

  datatype Verdict = Accepted | Refused | Throws

  /** validateParamValue; stoi and stoul throw when the number does not fit. */
  function Validate(t: ParamType, v: string, longMax: int): Verdict {
    var scan := ScanInteger(v);
    match t
    case StringType => if |v| > MAX_PARAM_LEN then Refused else Accepted
    case DateTimeType => if |v| > MAX_PARAM_LEN then Refused else Accepted
    case IntegerType =>
      if StartsWithDigit(v) || (|v| >= 2 && v[0] == '-' && IsDigit(v[1])) then
        if scan.value < INT_MIN || scan.value > INT_MAX then Throws
        else if scan.end == |v| then Accepted else Refused
      else Refused
    case UnsignedIntType =>
      if StartsWithDigit(v) then
        if scan.value > 2 * longMax + 1 then Throws
        else if scan.end == |v| then Accepted else Refused
      else Refused
    case BooleanType =>
      if EqualIgnoringCase(v, "true") || EqualIgnoringCase(v, "false") || v == "1" || v == "0"
      then Accepted else Refused
  }

  // -------------------------------------------------------------------- round trips

  /** The text that stands for a value after it went through the buffer. */
  function Canonical(t: ParamType, v: string, longMax: int): string {
    Decode(t, Encode(t, v, longMax))
  }

  lemma PrintedIsAccepted(d: int, longMax: int)
    requires INT_MIN <= d <= INT_MAX && IsLongMax(longMax)
    ensures Atoi(IntText(d), longMax) == d
    ensures Validate(IntegerType, IntText(d), longMax) == Accepted
    ensures d >= 0 ==> Validate(UnsignedIntType, IntText(d), longMax) == Accepted
  {
    ScanIntText(d);
  }

  lemma AcceptedDigits(v: string)
    requires StartsWithDigit(v)
    ensures ScanInteger(v).value >= 0
  {
    assert SpaceRun(v) == 0;
  }

  lemma TextSurvives(v: string)
    requires '\0' !in v
    ensures UpToNul(Padded(Truncated(v))) == Truncated(v)
  {
    var r := Truncated(v);
    var b := Padded(r);
    assert forall i :: 0 <= i < |r| ==> r[i] == v[i];
    assert b == r + b[|r|..];
    TextOfPadded(r, b[|r|..]);
  }

  /** The codec theorem: for every accepted value, numbers being at most INT_MAX,
      the decoded text is accepted again, encodes to the same bytes, and is a fixed
      point of the round trip. */
  lemma RoundTrip(t: ParamType, v: string, longMax: int)
    requires IsLongMax(longMax) && '\0' !in v
    requires Validate(t, v, longMax) == Accepted
    requires t == UnsignedIntType ==> ScanInteger(v).value <= INT_MAX
    ensures var c := Canonical(t, v, longMax);
            && Validate(t, c, longMax) == Accepted
            && Encode(t, c, longMax) == Encode(t, v, longMax)
            && Canonical(t, c, longMax) == c
  {
    match t
    case IntegerType =>
      WordRoundTrip(Atoi(v, longMax));
      PrintedIsAccepted(Atoi(v, longMax), longMax);
    case UnsignedIntType =>
      AcceptedDigits(v);
      WordRoundTrip(Atoi(v, longMax));
      PrintedIsAccepted(Atoi(v, longMax), longMax);
    case BooleanType =>
      TruthTexts();
    case _ =>
      TextSurvives(v);
      assert Truncated(Truncated(v)) == Truncated(v);
  }

  lemma TruthTexts()
    ensures Truthy("true") && !Truthy("false")
  {
    assert "true"[..4] == "true";
    assert Lower("false"[..4])[0] == 'f' && Lower("true")[0] == 't';
  }

  /** A string comes back unchanged exactly when the terminator fits behind it;
      validateParamValue lets one longer string pass. */
  lemma StringPreservedIff(v: string, longMax: int)
    requires '\0' !in v && Validate(StringType, v, longMax) == Accepted
    ensures Canonical(StringType, v, longMax) == v <==> |v| < MAX_PARAM_LEN
  {
    TextSurvives(v);
  }

  /** An integer keeps its value, whatever leading zeros it had. */
  lemma IntegerPreserved(v: string, longMax: int)
    requires IsLongMax(longMax) && Validate(IntegerType, v, longMax) == Accepted
    ensures ScanInteger(Canonical(IntegerType, v, longMax)).value == ScanInteger(v).value
  {
    WordRoundTrip(Atoi(v, longMax));
    ScanIntText(Atoi(v, longMax));
  }

  /** An unsigned value keeps its number exactly up to INT_MAX: above that the
      conversion through atoi changes it, with 32-bit and 64-bit longs alike. */
  lemma UnsignedPreservedIff(v: string, longMax: int)
    requires IsLongMax(longMax) && Validate(UnsignedIntType, v, longMax) == Accepted
    ensures ScanInteger(Canonical(UnsignedIntType, v, longMax)).value == ScanInteger(v).value
            <==> ScanInteger(v).value <= INT_MAX
  {
    AcceptedDigits(v);
    WordRoundTrip(Atoi(v, longMax));
    ScanIntText(Atoi(v, longMax));
  }

  /** A boolean keeps its meaning. */
  lemma BooleanPreserved(v: string, longMax: int)
    requires Validate(BooleanType, v, longMax) == Accepted
    ensures Canonical(BooleanType, v, longMax)
            == if v == "1" || EqualIgnoringCase(v, "true") then "true" else "false"
  {
    if EqualIgnoringCase(v, "true") {
      assert |v| == |Lower(v)| == 4;
      assert v[..4] == v;
    } else if EqualIgnoringCase(v, "false") {
      assert |v| == |Lower(v)| == 5;
      assert Lower(v)[0] == Lower("false")[0] == 'f';
      assert Lower(v[..4])[0] == 'f' && Lower("true")[0] == 't';
    }
  }

  // ------------------------------------------------- hostIf_utils.cpp: the other pair

  /** putValue: a string that does not fit leaves the buffer empty; date and time
      are not handled. */
  function PutValue(t: ParamType, v: string, longMax: int): Buffer {
    match t
    case StringType => if |v| < MAX_PARAM_LEN then Padded(v) else Padded([])
    case IntegerType => Padded(WordBytes(Atoi(v, longMax)))
    case UnsignedIntType => Padded(WordBytes(Atou(v, longMax)))
    case BooleanType => Padded([if v == "true" then Byte(1) else '\0'])
    case DateTimeType => Padded([])
  }

  datatype Text = Text(s: string) | Overflow

  /** getStringValue of hostIf_utils; int_to_string has a ten-byte buffer. */
  function GetStringValue(t: ParamType, b: Buffer): Text {
    match t
    case StringType => Text(UpToNul(b))
    case IntegerType =>
      var s := IntText(ReadInt(b));
      if |s| < 10 then Text(s) else Overflow
    case UnsignedIntType => Text(IntText(ReadUint(b)))
    case BooleanType => Text(if b[0] != '\0' then "true" else "false")
    case DateTimeType => Text("")
  }

  /** On canonical values of the four types it knows, putValue writes the bytes the
      request handler writes. */
  lemma PutValueAgrees(t: ParamType, v: string, longMax: int)
    requires IsLongMax(longMax) && '\0' !in v && t != DateTimeType
    requires Validate(t, v, longMax) == Accepted
    requires t == UnsignedIntType ==> ScanInteger(v).value <= INT_MAX
    ensures var c := Canonical(t, v, longMax);
            PutValue(t, c, longMax) == Encode(t, c, longMax) == Encode(t, v, longMax)
  {
    RoundTrip(t, v, longMax);
    match t
    case UnsignedIntType => PutUnsignedAgrees(v, longMax);
    case BooleanType => TruthTexts();
    case StringType => TextSurvives(v);
    case _ =>
  }

  lemma PutUnsignedAgrees(v: string, longMax: int)
    requires IsLongMax(longMax) && StartsWithDigit(v) && ScanInteger(v).value <= INT_MAX
    ensures var c := Canonical(UnsignedIntType, v, longMax);
            Atou(c, longMax) == Atoi(c, longMax)
  {
    hide WordBytes, ScanInteger, IntText;
    AcceptedDigits(v);
    WordRoundTrip(Atoi(v, longMax));
    ScanIntText(Atoi(v, longMax));
  }

  /** On other accepted booleans they part: putValue knows no spelling of true but
      the lower-case word. */
  lemma PutBooleanIff(v: string, longMax: int)
    requires Validate(BooleanType, v, longMax) == Accepted
    ensures PutValue(BooleanType, v, longMax) == Encode(BooleanType, v, longMax)
            <==> v == "true" || !Truthy(v)
  {
    TruthTexts();
    var p, e := PutValue(BooleanType, v, longMax), Encode(BooleanType, v, longMax);
    assert p[..1][0] == p[0] && e[..1][0] == e[0];
  }

  /** Where the two decoders read the same text from a buffer: unsigned numbers
      exactly below 2^31, integers exactly while nine characters are enough. */
  lemma DecodersAgreeIff(t: ParamType, b: Buffer)
    requires forall i :: 0 <= i < 4 ==> b[i] as int < 256
    ensures GetStringValue(t, b) == Text(Decode(t, b)) <==>
            match t
            case UnsignedIntType => ReadUint(b) <= INT_MAX
            case IntegerType => -99_999_999 <= ReadInt(b) <= 999_999_999
            case DateTimeType => b[0] == '\0'
            case _ => true
  {
    match t
    case UnsignedIntType =>
      ScanIntText(ReadUint(b));
      ScanIntText(ReadInt(b));
    case IntegerType =>
      var d := ReadInt(b);
      assert Pow10(3) == 1000;
      assert Pow10(6) == 1_000_000;
      assert Pow10(8) == 100_000_000 && Pow10(9) == 1_000_000_000;
      if d < 0 {
        DecimalLength(-d, 8);
      } else {
        DecimalLength(d, 9);
      }
    case _ =>
  }

  // ----------------------------------------- what is accepted, stored and read back

  predicate IsNumber(t: ParamType) {
    t == IntegerType || t == UnsignedIntType
  }

  /** How a number of the type may begin. */
  predicate MayBegin(t: ParamType, v: string) {
    v != "" && (v[0] in DIGITS || (t == IntegerType && |v| >= 2 && v[0] == '-' && v[1] in DIGITS))
  }

  /** The numeral at the front of a text, up to the first character that is no digit. */
  predicate Leads(t: ParamType, v: string, k: nat, n: int) {
    MayBegin(t, v) && k <= |v| && IsNumeral(v[..k], n) && (k < |v| ==> v[k] !in DIGITS)
  }

  lemma LeadIsScanned(t: ParamType, v: string, k: nat, n: int)
    requires Leads(t, v, k, n)
    ensures ScanInteger(v) == Scan(n, k)
  {
    hide ScanInteger;
    assert v == [] + (v[..k] + v[k..]);
    ScansNumeral([], v[..k], n, v[k..]);
  }

  /** Every text that begins like a number has such a numeral in front. */
  lemma NumeralInFront(t: ParamType, v: string) returns (k: nat, n: int)
    requires IsNumber(t) && MayBegin(t, v)
    ensures Leads(t, v, k, n)
  {
    hide Value;
    var start := if v[0] == '-' then 1 else 0;
    DigitsByPosition(v[0]);
    DigitsByPosition(v[start]);
    var m := DigitRun(v[start..]);
    k := start + m;
    assert v[..k][start..] == v[start..][..m];
    n := if start == 1 then 0 - Value(v[..k][start..]) else Value(v[..k][start..]);
    if k < |v| {
      assert v[start..][m] == v[k];
      DigitsByPosition(v[k]);
    }
    assert v[..k][0] == v[0] && v[..k][0..] == v[..k];
  }

  /** What validateParamValue says of a number: out of range of int or unsigned long
      it throws, whatever follows; otherwise it accepts a numeral and nothing else. */
  lemma NumberVerdict(t: ParamType, v: string, longMax: int, k: nat, n: int)
    requires IsNumber(t) && Leads(t, v, k, n)
    ensures Validate(t, v, longMax)
            == if t == IntegerType && !(-0x8000_0000 <= n <= 0x7FFF_FFFF) then Throws
               else if t == UnsignedIntType && n > 2 * longMax + 1 then Throws
               else if k == |v| then Accepted else Refused
  {
    hide ScanInteger, IsNumeral;
    LeadIsScanned(t, v, k, n);
    DigitsByPosition(v[0]);
    if |v| >= 2 {
      DigitsByPosition(v[1]);
    }
  }

  /** And of everything else. */
  lemma OtherVerdicts(t: ParamType, v: string, longMax: int)
    requires IsNumber(t) ==> !MayBegin(t, v)
    ensures Validate(t, v, longMax)
            == match t
               case BooleanType =>
                 if v == "1" || v == "0" || EqualIgnoringCase(v, "true") || EqualIgnoringCase(v, "false")
                 then Accepted else Refused
               case StringType => if |v| <= 4096 then Accepted else Refused
               case DateTimeType => if |v| <= 4096 then Accepted else Refused
               case _ => Refused
  {
    if v != "" {
      DigitsByPosition(v[0]);
    }
    if |v| >= 2 {
      DigitsByPosition(v[1]);
    }
  }

  /** The first four bytes are n modulo 2^32, lowest byte first, and the others zero. */
  ghost predicate HasWord(b: Buffer, n: int) {
    && b[0] as int < 256 && b[1] as int < 256 && b[2] as int < 256 && b[3] as int < 256
    && (b[0] as int + 0x100 * b[1] as int + 0x1_0000 * b[2] as int + 0x100_0000 * b[3] as int - n)
       % 0x1_0000_0000 == 0
    && forall i :: 4 <= i < 4096 ==> b[i] == '\0'
  }

  /** The text, cut to `room` characters, and zeros. */
  ghost predicate HasText(b: Buffer, v: string, room: nat) {
    forall i :: 0 <= i < 4096 ==> b[i] == if i < |v| && i < room then v[i] else '\0'
  }

  ghost predicate HasTruth(b: Buffer, truth: bool) {
    b[0] == (if truth then 1 as char else '\0') && forall i :: 1 <= i < 4096 ==> b[i] == '\0'
  }

  lemma WordIsStored(v: int)
    ensures HasWord(Padded(WordBytes(v)), v)
  {
    var bytes, b := WordBytes(v), Padded(WordBytes(v));
    assert forall i :: 0 <= i < 4 ==> b[i] == b[..4][i] == bytes[i];
    WordValue(v);
  }

  lemma SameWord(b: Buffer, m: int, n: int)
    requires HasWord(b, m) && (m - n) % 0x1_0000_0000 == 0
    ensures HasWord(b, n)
  {
  }

  /** What the request handler stores, byte by byte: texts up to 4095 characters,
      numbers modulo 2^32, LONG_MAX where strtol stops, and truth values. */
  lemma StoredBytes(t: ParamType, v: string, longMax: int, n: int)
    requires IsLongMax(longMax) && Validate(t, v, longMax) == Accepted
    requires IsNumber(t) ==> IsNumeral(v, n)
    ensures var b := Encode(t, v, longMax);
            match t
            case BooleanType => HasTruth(b, v == "1" || EqualIgnoringCase(v, "true"))
            case IntegerType => HasWord(b, n)
            case UnsignedIntType => HasWord(b, if n <= longMax then n else longMax)
            case _ => HasText(b, v, 4095)
  {
    hide ScanInteger, WordBytes, IsNumeral, EqualIgnoringCase, HasWord;
    match t
    case BooleanType =>
      BooleanPreserved(v, longMax);
      TruthyIff(v, longMax);
    case IntegerType =>
      StoredNumber(v, longMax, n);
      NumeralIsScanned(v, n);
    case UnsignedIntType =>
      StoredNumber(v, longMax, n);
      NumeralIsScanned(v, n);
      AcceptedDigits(v);
    case _ =>
      assert forall i :: 0 <= i < |Truncated(v)| ==> Encode(t, v, longMax)[..|Truncated(v)|][i] == v[i];
  }

  lemma TruthyIff(v: string, longMax: int)
    requires Validate(BooleanType, v, longMax) == Accepted
    ensures Truthy(v) <==> v == "1" || EqualIgnoringCase(v, "true")
    ensures Encode(BooleanType, v, longMax)[..1] == [if Truthy(v) then 1 as char else '\0']
  {
    BooleanPreserved(v, longMax);
    var b := Encode(BooleanType, v, longMax);
    assert b[..1][0] == b[0];
  }

  lemma NumeralIsScanned(v: string, n: int)
    requires IsNumeral(v, n)
    ensures ScanInteger(v) == Scan(n, |v|)
  {
    hide ScanInteger, Value;
    assert v == [] + (v + []);
    ScansNumeral([], v, n, []);
  }

  lemma StoredNumber(v: string, longMax: int, n: int)
    requires IsLongMax(longMax) && IsNumeral(v, n)
    ensures HasWord(Padded(WordBytes(Atoi(v, longMax))),
                    if n > longMax then longMax else if n < -longMax - 1 then -longMax - 1 else n)
  {
    hide ScanInteger, WordBytes, HasWord, Value;
    NumeralIsScanned(v, n);
    var stored := Atoi(v, longMax);
    WordIsStored(stored);
    SameWord(Padded(WordBytes(stored)), stored, Clamp(n, -longMax - 1, longMax));
  }

  /** What putValue stores, for every text that is a number, a word or a string. */
  lemma PutBytes(t: ParamType, v: string, longMax: int, n: int)
    requires IsLongMax(longMax)
    requires IsNumber(t) ==> IsNumeral(v, n)
    ensures var b := PutValue(t, v, longMax);
            match t
            case BooleanType => HasTruth(b, v == "true")
            case IntegerType =>
              HasWord(b, if n > longMax then longMax else if n < -longMax - 1 then -longMax - 1 else n)
            case UnsignedIntType => HasWord(b, if -2 * longMax - 1 <= n <= 2 * longMax + 1 then n else -1)
            case StringType => HasText(b, v, if |v| < 4096 then 4096 else 0)
            case DateTimeType => HasText(b, v, 0)
  {
    hide ScanInteger, WordBytes, IsNumeral, HasWord;
    var b := PutValue(t, v, longMax);
    match t
    case BooleanType => assert b[..1][0] == b[0];
    case IntegerType => StoredNumber(v, longMax, n);
    case UnsignedIntType => PutUnsigned(v, longMax, n);
    case StringType =>
      if |v| < 4096 {
        assert forall i :: 0 <= i < |v| ==> b[..|v|][i] == v[i];
      }
    case DateTimeType =>
  }

  lemma PutUnsigned(v: string, longMax: int, n: int)
    requires IsLongMax(longMax) && IsNumeral(v, n)
    ensures HasWord(Padded(WordBytes(Atou(v, longMax))), if -2 * longMax - 1 <= n <= 2 * longMax + 1 then n else -1)
  {
    hide ScanInteger, WordBytes, HasWord, Value;
    NumeralIsScanned(v, n);
    WordIsStored(Atou(v, longMax));
    SameWord(Padded(WordBytes(Atou(v, longMax))), Atou(v, longMax),
             if -2 * longMax - 1 <= n <= 2 * longMax + 1 then n else -1);
  }

  /** What both decoders read from a buffer that holds n, a text or a truth value. */
  lemma ReadBack(b: Buffer, n: int)
    ensures HasWord(b, n) && -0x8000_0000 <= n <= 0x7FFF_FFFF ==>
              && IsNumeral(Decode(IntegerType, b), n) && IsNumeral(Decode(UnsignedIntType, b), n)
              && (GetStringValue(IntegerType, b) == Text(Decode(IntegerType, b))
                  <==> -99_999_999 <= n <= 999_999_999)
    ensures HasWord(b, n) && 0 <= n < 0x1_0000_0000 ==>
              GetStringValue(UnsignedIntType, b).Text? && IsNumeral(GetStringValue(UnsignedIntType, b).s, n)
    ensures IsTextOf(Decode(StringType, b), b) && IsTextOf(Decode(DateTimeType, b), b)
    ensures GetStringValue(StringType, b) == Text(Decode(StringType, b))
    ensures Decode(BooleanType, b) == if b[0] == '\0' then "false" else "true"
    ensures GetStringValue(BooleanType, b) == Text(if b[0] == '\0' then "false" else "true")
    ensures GetStringValue(DateTimeType, b) == Text("")
  {
    hide UpToNul, Decimal, ScanInteger;
    if HasWord(b, n) && -0x8000_0000 <= n <= 0x7FFF_FFFF {
      assert ReadInt(b) == n;
      IntTextIsNumeral(n);
      DecodersAgreeIff(IntegerType, b);
    }
    if HasWord(b, n) && 0 <= n < 0x1_0000_0000 {
      assert ReadUint(b) == n;
      IntTextIsNumeral(n);
    }
    assert IsTextOf(UpToNul(b), b);
  }

  lemma IntTextIsNumeral(n: int)
    ensures IsNumeral(IntText(n), n)
  {
    if n < 0 {
      ValueOfDecimal(-n);
      assert ("-" + Decimal(-n))[1..] == Decimal(-n);
    } else {
      ValueOfDecimal(n);
    }
  }

  // -------------------------------------------------------------- in the buffers

  /** convertAndAssignParamValue; the caller has cleared the message. */
  method ConvertAndAssignParamValue(t: ParamType, value: string, longMax: int, paramValue: array<char>)
    requires paramValue.Length == MAX_PARAM_LEN
    requires forall i :: 0 <= i < MAX_PARAM_LEN ==> paramValue[i] == '\0'
    modifies paramValue
    ensures paramValue[..] == Encode(t, value, longMax)
  {
    match t {
      case StringType => WriteBytes(paramValue, Truncated(value));
      case DateTimeType => WriteBytes(paramValue, Truncated(value));
      case IntegerType => WriteBytes(paramValue, WordBytes(Atoi(value, longMax)));
      case UnsignedIntType => WriteBytes(paramValue, WordBytes(Atoi(value, longMax)));
      case BooleanType => paramValue[0] := if Truthy(value) then Byte(1) else '\0';
    }
    assert paramValue[..] == Encode(t, value, longMax);
  }

  method WriteBytes(paramValue: array<char>, bytes: seq<char>)
    requires paramValue.Length == MAX_PARAM_LEN && |bytes| <= MAX_PARAM_LEN
    modifies paramValue
    ensures paramValue[..] == bytes + old(paramValue[|bytes|..])
  {
    forall i | 0 <= i < |bytes| {
      paramValue[i] := bytes[i];
    }
  }

  /** putValue clears the buffer itself. */
  method PutValueInPlace(t: ParamType, value: string, longMax: int, paramValue: array<char>)
    requires paramValue.Length == MAX_PARAM_LEN
    modifies paramValue
    ensures paramValue[..] == PutValue(t, value, longMax)
  {
    forall i | 0 <= i < MAX_PARAM_LEN {
      paramValue[i] := '\0';
    }
    match t {
      case StringType =>
        if |value| < MAX_PARAM_LEN {
          WriteBytes(paramValue, value);
        }
      case IntegerType => WriteBytes(paramValue, WordBytes(Atoi(value, longMax)));
      case UnsignedIntType => WriteBytes(paramValue, WordBytes(Atou(value, longMax)));
      case BooleanType => paramValue[0] := if value == "true" then Byte(1) else '\0';
      case DateTimeType =>
    }
    assert paramValue[..] == PutValue(t, value, longMax);
  }
}
