/** The text command exchanged between the operator client and the car:
    four C ints, steering, accelerator, brake and paddle, rendered in decimal
    with `std::to_string`, joined by single spaces, and read back on the car
    with `sscanf(buffer, "%d %d %d %d", ...)`. */
module Wire {
  import opened Seqs

  datatype Option<T> = None | Some(value: T)

  /** One command, fields in wire order. */
  datatype Command = Command(steering: int, accelerator: int, brake: int, paddle: int)

  predicate IsDigit(ch: char) {
    '0' <= ch <= '9'
  }

  /** The characters C's `isspace` accepts in the "C" locale. */
  predicate IsSpace(ch: char) {
    ch == ' ' || ch == '\t' || ch == '\n' || ch == '\r' || ch as int == 11 || ch as int == 12
  }

  predicate AllDigits(s: string) {
    forall i :: 0 <= i < |s| ==> IsDigit(s[i])
  }

  function DigitValue(ch: char): (d: nat)
    requires IsDigit(ch)
  {
    ch as int - '0' as int
  }

  function DigitChar(d: nat): (ch: char)
    requires d < 10
    ensures IsDigit(ch) && DigitValue(ch) == d
  {
    ('0' as int + d) as char
  }

  // ---------------------------------------------------------------------------
  // Decoding: the `%d` conversion of scanf
  // ---------------------------------------------------------------------------

  /** Drops leading white space (what both `%d` and a blank in the format do). */
  function SkipSpaces(s: string): (r: string)
    ensures |r| <= |s|
    ensures r == [] || !IsSpace(r[0])
  {
    if |s| > 0 && IsSpace(s[0]) then SkipSpaces(s[1..]) else s
  }

  lemma {:induction false} SkipSpacesSuffix(s: string)
    ensures SkipSpaces(s) == s[|s| - |SkipSpaces(s)|..]
  {
    if |s| > 0 && IsSpace(s[0]) {
      SkipSpacesSuffix(s[1..]);
    }
  }

  /** Length of the longest run of digits at the front of `s`. */
  function DigitRun(s: string): (n: nat)
    ensures n <= |s|
    ensures AllDigits(s[..n])
    ensures n == |s| || !IsDigit(s[n])
  {
    if |s| > 0 && IsDigit(s[0]) then
      var n := 1 + DigitRun(s[1..]);
      assert s[..n] == [s[0]] + s[1..][..n - 1];
      n
    else 0
  }

  /** Value of a run of decimal digits, most significant first. */
  function DecimalValue(ds: string): (v: nat)
    requires AllDigits(ds)
  {
    if ds == [] then 0 else 10 * DecimalValue(ds[..|ds| - 1]) + DigitValue(ds[|ds| - 1])
  }

  /** One `%d` conversion: white space, an optional sign, then the longest
      run of decimal digits, of which there must be at least one. On success
      gives the value and the unread rest of the input. */
  function ScanInt(s: string): (r: Option<(int, string)>)
    ensures r.Some? ==> |r.value.1| < |s|
  {
    match ScanSigned(SkipSpaces(s))
    case None => None
    case Some((negative, ds, rest)) =>
      var v: int := DecimalValue(ds);
      Some((if negative then -v else v, rest))
  }

  /** The part of `%d` after the white space: whether a minus sign came first,
      the digit run after the optional sign, and what follows it. */
  function ScanSigned(t: string): (r: Option<(bool, string, string)>)
    ensures r.Some? ==> |r.value.1| > 0 && AllDigits(r.value.1) && |r.value.2| < |t|
  {
    var signed := |t| > 0 && (t[0] == '-' || t[0] == '+');
    var u := if signed then t[1..] else t;
    var n := DigitRun(u);
    if n == 0 then None else Some((signed && t[0] == '-', u[..n], u[n..]))
  }

  /** How many conversions `sscanf` stored, and the four variables after it. */
  datatype ScanResult = ScanResult(stored: nat, vars: Command)

  /** The variable the `k`-th conversion of the format stores into. */
  function Field(c: Command, k: nat): (v: int)
    requires k < 4
  {
    if k == 0 then c.steering
    else if k == 1 then c.accelerator
    else if k == 2 then c.brake
    else c.paddle
  }

  /** The variables after the `k`-th conversion stored `v`. */
  function Store(c: Command, k: nat, v: int): (r: Command)
    requires k < 4
    ensures Field(r, k) == v
    ensures forall j :: 0 <= j < 4 && j != k ==> Field(r, j) == Field(c, j)
  {
    if k == 0 then c.(steering := v)
    else if k == 1 then c.(accelerator := v)
    else if k == 2 then c.(brake := v)
    else c.(paddle := v)
  }

  /** The directives of `"%d %d %d %d"` from the `k`-th on, applied to the
      rest `s` of the input with the variables holding `vars`: each conversion
      that succeeds is stored and the next one reads what it left; the first
      that fails ends the scan. */
  function ScanFrom(s: string, k: nat, vars: Command): (r: ScanResult)
    requires k <= 4
    ensures k <= r.stored <= 4
    decreases 4 - k
  {
    if k == 4 then ScanResult(4, vars)
    else
      match ScanInt(s)
      case None => ScanResult(k, vars)
      case Some((v, rest)) => ScanFrom(rest, k + 1, Store(vars, k, v))
  }

  /** What `sscanf(s, "%d %d %d %d", &steering, &accelerator, &brake, &paddle)`
      does to the four variables, which held `vars` before. Anything after the
      fourth integer is ignored. `stored` is the count scanf returns (not
      looking at its EOF case, which stores nothing either). */
  function Sscanf(s: string, vars: Command): (r: ScanResult)
    ensures r.stored <= 4
  {
    ScanFrom(s, 0, vars)
  }

  /** The command a payload decodes to when all four conversions succeed. */
  function Decode(s: string): (r: Option<Command>) {
    var r := Sscanf(s, Command(0, 0, 0, 0));
    if r.stored == 4 then Some(r.vars) else None
  }

  /** The four variables after the unchecked `sscanf` call, where `garbage` is
      the indeterminate value they held before it. */
  function Received(s: string, garbage: Command): (c: Command) {
    Sscanf(s, garbage).vars
  }

  /** What the variables hold after each message's unchecked `sscanf`, in order. */
  function ReceivedAll(msgs: seq<string>, garbage: seq<Command>): (cs: seq<Command>)
    requires |garbage| == |msgs|
    ensures |cs| == |msgs|
  {
    if msgs == [] then []
    else ReceivedAll(msgs[..|msgs| - 1], garbage[..|msgs| - 1]) + [Received(msgs[|msgs| - 1], garbage[|msgs| - 1])]
  }

  lemma {:induction false} ReceivedAllAt(msgs: seq<string>, garbage: seq<Command>, i: nat)
    requires |garbage| == |msgs| && i < |msgs|
    ensures ReceivedAll(msgs, garbage)[i] == Received(msgs[i], garbage[i])
    decreases |msgs|
  {
    var n := |msgs| - 1;
    if i < n {
      ReceivedAllAt(msgs[..n], garbage[..n], i);
    }
  }


  // ---------------------------------------------------------------------------
  // Encoding: std::to_string and the client's concatenation
  // ---------------------------------------------------------------------------

  /** Decimal digits of a natural number, no leading zeros. */
  function NatToDecimal(n: nat): (s: string)
    ensures |s| > 0 && AllDigits(s)
    ensures DecimalValue(s) == n
    ensures s[0] != '0' || n == 0
  {
    if n < 10 then [DigitChar(n)]
    else
      var s := NatToDecimal(n / 10) + [DigitChar(n % 10)];
      assert s[..|s| - 1] == NatToDecimal(n / 10);
      s
  }

  /** `std::to_string(int)`: a minus sign for negative values, then the digits. */
  function IntToDecimal(n: int): (s: string) {
    if n < 0 then "-" + NatToDecimal(-n) else NatToDecimal(n)
  }

  /** The message the client sends for a command. */
  function Encode(c: Command): (msg: string) {
    IntToDecimal(c.steering) + " " + IntToDecimal(c.accelerator) + " "
      + IntToDecimal(c.brake) + " " + IntToDecimal(c.paddle)
  }

  // ---------------------------------------------------------------------------
  // Properties
  // ---------------------------------------------------------------------------

  lemma {:induction false} DigitRunOfDigits(ds: string, rest: string)
    requires AllDigits(ds)
    requires rest == [] || !IsDigit(rest[0])
    ensures DigitRun(ds + rest) == |ds|
    decreases |ds|
  {
    if ds != [] {
      assert (ds + rest)[1..] == ds[1..] + rest;
      DigitRunOfDigits(ds[1..], rest);
    } else {
      assert ds + rest == rest;
    }
  }

  /** A conversion consumes a sign (if any) and the whole digit run. */
  lemma ScanDigits(negative: bool, ds: string, rest: string)
    requires |ds| > 0 && AllDigits(ds)
    requires rest == [] || !IsDigit(rest[0])
    ensures ScanSigned((if negative then "-" else "") + ds + rest) == Some((negative, ds, rest))
  {
    var u := ds + rest;
    DigitRunOfDigits(ds, rest);
    assert u[..|ds|] == ds;
    assert u[|ds|..] == rest;
    if negative {
      assert ("-" + u)[1..] == u;
      assert (if negative then "-" else "") + ds + rest == "-" + u;
    } else {
      assert u[0] == ds[0] && IsDigit(ds[0]);
      assert (if negative then "-" else "") + ds + rest == u;
    }
  }

  /** One `%d` conversion reads back exactly what `std::to_string` wrote,
      provided the rendering is not directly followed by another digit. */
  lemma ScanIntOfDecimal(n: int, rest: string)
    requires rest == [] || !IsDigit(rest[0])
    ensures ScanInt(IntToDecimal(n) + rest) == Some((n, rest))
  {
    var ds := NatToDecimal(if n < 0 then -n else n);
    ScanDigits(n < 0, ds, rest);
    var d := IntToDecimal(n);
    assert d + rest == (if n < 0 then "-" else "") + ds + rest;
    DecimalStart(n);
    assert (d + rest)[0] == d[0];
    SkipNothing(d + rest);
  }

  /** A rendering starts with a minus sign or a digit. */
  lemma DecimalStart(n: int)
    ensures |IntToDecimal(n)| > 0 && !IsSpace(IntToDecimal(n)[0])
  {
    if n < 0 {
      assert IntToDecimal(n)[0] == '-';
    } else {
      assert IsDigit(NatToDecimal(n)[0]);
    }
  }

  lemma SkipNothing(s: string)
    requires s == [] || !IsSpace(s[0])
    ensures SkipSpaces(s) == s
  {
  }

  /** A blank in front of a conversion changes nothing: `%d` skips it. */
  lemma ScanIntSkipBlank(s: string)
    ensures ScanInt(" " + s) == ScanInt(s)
  {
    assert (" " + s)[1..] == s;
    assert SkipSpaces(" " + s) == SkipSpaces(s);
  }

  /** A blank, a rendered int and a tail that is empty or starts with a blank:
      the next conversion yields that int and leaves the tail. */
  lemma ScanBlankDecimal(n: int, tail: string)
    requires tail == [] || tail[0] == ' '
    ensures ScanInt(" " + IntToDecimal(n) + tail) == Some((n, tail))
  {
    var t := IntToDecimal(n) + tail;
    assert " " + IntToDecimal(n) + tail == " " + t;
    ScanIntSkipBlank(t);
    ScanIntOfDecimal(n, tail);
  }

  /** Round trip: the car's parser recovers the client's four integers in order. */
  lemma DecodeEncode(c: Command)
    ensures Decode(Encode(c)) == Some(c)
  {
    DecodeEncodeTail(c, "");
    assert Encode(c) + "" == Encode(c);
  }

  /** A blank-separated field followed by the rest of the input, regrouped so
      that each conversion sees one field and what follows it. */
  lemma Regroup(a: string, b: string, tail: string)
    ensures a + " " + b + tail == a + (" " + b + tail)
  {
    AppendAssoc(a + " ", b, tail);
    AppendAssoc(a, " ", b + tail);
    AppendAssoc(" ", b, tail);
  }

  /** The round trip holds with anything after the message that starts with a
      blank: `sscanf` stops after the fourth value. */
  lemma DecodeEncodeTail(c: Command, tail: string)
    requires tail == [] || tail[0] == ' '
    ensures Decode(Encode(c) + tail) == Some(c)
  {
    var s0 := IntToDecimal(c.steering);
    var r2 := " " + IntToDecimal(c.paddle) + tail;
    var r1 := " " + IntToDecimal(c.brake) + r2;
    var r0 := " " + IntToDecimal(c.accelerator) + r1;
    var s1, s2 := IntToDecimal(c.accelerator), IntToDecimal(c.brake);
    Regroup(s0 + " " + s1 + " " + s2, IntToDecimal(c.paddle), tail);
    Regroup(s0 + " " + s1, s2, r2);
    Regroup(s0, s1, r1);
    assert Encode(c) + tail == s0 + r0;
    ScanIntOfDecimal(c.steering, r0);
    ScanBlankDecimal(c.accelerator, r1);
    ScanBlankDecimal(c.brake, r2);
    ScanBlankDecimal(c.paddle, tail);
    DecodeChain(Encode(c) + tail, r0, r1, r2, tail, c);
  }

  /** Four successful conversions in a row make a decoded command. */
  lemma DecodeChain(s: string, r1: string, r2: string, r3: string, r4: string, c: Command)
    requires ScanInt(s) == Some((c.steering, r1))
    requires ScanInt(r1) == Some((c.accelerator, r2))
    requires ScanInt(r2) == Some((c.brake, r3))
    requires ScanInt(r3) == Some((c.paddle, r4))
    ensures Decode(s) == Some(c)
  {
    var v0 := Command(0, 0, 0, 0);
    var v1 := v0.(steering := c.steering);
    var v2 := v1.(accelerator := c.accelerator);
    var v3 := v2.(brake := c.brake);
    assert ScanFrom(r3, 3, v3) == ScanResult(4, c);
    assert ScanFrom(r2, 2, v2) == ScanFrom(r3, 3, v3);
    assert ScanFrom(r1, 1, v1) == ScanFrom(r2, 2, v2);
    assert ScanFrom(s, 0, v0) == ScanFrom(r1, 1, v1);
  }

  /** The count a scan reaches does not depend on what the variables held,
      and the variables it reads and stores agree whatever they held: the
      fields before `k` are the caller's, and every field from the `k`-th up
      to the count comes from the input. */
  lemma {:induction false} ScanFromAgrees(s: string, k: nat, a: Command, b: Command)
    requires k <= 4
    requires forall j :: 0 <= j < k ==> Field(a, j) == Field(b, j)
    ensures ScanFrom(s, k, a).stored == ScanFrom(s, k, b).stored
    ensures forall j :: 0 <= j < ScanFrom(s, k, a).stored ==> Field(ScanFrom(s, k, a).vars, j) == Field(ScanFrom(s, k, b).vars, j)
    decreases 4 - k
  {
    if k < 4 {
      match ScanInt(s)
      case None =>
      case Some((v, rest)) =>
        ScanFromAgrees(rest, k + 1, Store(a, k, v), Store(b, k, v));
    }
  }

  /** Every variable past the last stored conversion keeps the value it held. */
  lemma {:induction false} ScanFromKeeps(s: string, k: nat, vars: Command)
    requires k <= 4
    ensures forall j :: ScanFrom(s, k, vars).stored <= j < 4 ==> Field(ScanFrom(s, k, vars).vars, j) == Field(vars, j)
    ensures forall j :: 0 <= j < k ==> Field(ScanFrom(s, k, vars).vars, j) == Field(vars, j)
    decreases 4 - k
  {
    if k < 4 {
      match ScanInt(s)
      case None =>
      case Some((v, rest)) =>
        ScanFromKeeps(rest, k + 1, Store(vars, k, v));
    }
  }

  /** When the payload is well formed the variables hold the decoded command,
      whatever they held before; when it is not, every variable from the first
      failed conversion on (the paddle at least) keeps its indeterminate value. */
  lemma ReceivedDecoded(s: string, garbage: Command)
    ensures Decode(s).Some? <==> Sscanf(s, garbage).stored == 4
    ensures Decode(s).Some? ==> Received(s, garbage) == Decode(s).value
    ensures forall j :: Sscanf(s, garbage).stored <= j < 4 ==> Field(Received(s, garbage), j) == Field(garbage, j)
    ensures Decode(s).None? ==> Received(s, garbage).paddle == garbage.paddle
  {
    var z := Command(0, 0, 0, 0);
    ScanFromAgrees(s, 0, z, garbage);
    ScanFromKeeps(s, 0, garbage);
    var r := Sscanf(s, garbage);
    if r.stored == 4 {
      var d := Sscanf(s, z).vars;
      assert Field(d, 0) == Field(r.vars, 0) && Field(d, 1) == Field(r.vars, 1);
      assert Field(d, 2) == Field(r.vars, 2) && Field(d, 3) == Field(r.vars, 3);
    } else {
      assert Field(r.vars, 3) == Field(garbage, 3);
    }
  }

  /** A payload cut short after two values stores those two and leaves brake
      and paddle as they were. */
  lemma TwoValuesOnly(steering: int, accelerator: int, garbage: Command)
    ensures Sscanf(IntToDecimal(steering) + " " + IntToDecimal(accelerator), garbage)
         == ScanResult(2, garbage.(steering := steering, accelerator := accelerator))
    ensures Decode(IntToDecimal(steering) + " " + IntToDecimal(accelerator)) == None
  {
    var s := IntToDecimal(steering) + " " + IntToDecimal(accelerator);
    var r0 := " " + IntToDecimal(accelerator);
    ScanIntOfDecimal(steering, r0);
    ScanBlankDecimal(accelerator, "");
    AppendAssoc(IntToDecimal(steering), " ", IntToDecimal(accelerator));
    assert r0 == " " + IntToDecimal(accelerator) + "";
    assert ScanInt("") == None;
    forall vars: Command
      ensures ScanFrom(s, 0, vars) == ScanResult(2, vars.(steering := steering, accelerator := accelerator))
    {
      var v1 := vars.(steering := steering);
      assert ScanFrom("", 2, v1.(accelerator := accelerator)) == ScanResult(2, v1.(accelerator := accelerator));
      assert ScanFrom(r0, 1, v1) == ScanFrom("", 2, v1.(accelerator := accelerator));
    }
  }

  /** The rendering of an int holds no white space and ends in a digit. */
  lemma DecimalShape(n: int)
    ensures var s := IntToDecimal(n);
      |s| > 0 && IsDigit(s[|s| - 1]) && (IsDigit(s[0]) || s[0] == '-')
      && forall i :: 0 <= i < |s| ==> !IsSpace(s[i])
  {
    var ds := NatToDecimal(if n < 0 then -n else n);
    if n < 0 {
      assert forall i :: 1 <= i < |"-" + ds| ==> ("-" + ds)[i] == ds[i - 1];
    }
  }

  /** The message holds exactly three blanks, as single separators: it neither
      starts nor ends with a delimiter and never holds two blanks in a row. */
  lemma EncodeShape(c: Command)
    ensures var m := Encode(c);
      multiset(m)[' '] == 3
      && |m| > 0 && !IsSpace(m[0]) && IsDigit(m[|m| - 1])
      && forall i :: 0 <= i < |m| - 1 ==> !(IsSpace(m[i]) && IsSpace(m[i + 1]))
  {
    var s0, s1, s2, s3 := IntToDecimal(c.steering), IntToDecimal(c.accelerator),
                          IntToDecimal(c.brake), IntToDecimal(c.paddle);
    DecimalShape(c.steering);
    DecimalShape(c.accelerator);
    DecimalShape(c.brake);
    DecimalShape(c.paddle);
    JoinedBlanks(s0, s1, s2, s3);
    JoinedSeparators(s0, s1, s2, s3);
  }

  /** Four blank-free fields joined by single blanks hold exactly three blanks. */
  lemma JoinedBlanks(s0: string, s1: string, s2: string, s3: string)
    requires forall k :: 0 <= k < |s0| ==> !IsSpace(s0[k])
    requires forall k :: 0 <= k < |s1| ==> !IsSpace(s1[k])
    requires forall k :: 0 <= k < |s2| ==> !IsSpace(s2[k])
    requires forall k :: 0 <= k < |s3| ==> !IsSpace(s3[k])
    ensures multiset(s0 + " " + s1 + " " + s2 + " " + s3)[' '] == 3
  {
    NoBlank(s0);
    NoBlank(s1);
    NoBlank(s2);
    NoBlank(s3);
    var m := s0 + " " + s1 + " " + s2 + " " + s3;
    assert multiset(m) == multiset(s0) + multiset(" ") + multiset(s1) + multiset(" ")
                          + multiset(s2) + multiset(" ") + multiset(s3);
  }

  /** Four non-empty blank-free fields joined by single blanks never hold two
      blanks in a row. */
  lemma JoinedSeparators(s0: string, s1: string, s2: string, s3: string)
    requires |s0| > 0 && |s1| > 0 && |s2| > 0 && |s3| > 0
    requires forall k :: 0 <= k < |s0| ==> !IsSpace(s0[k])
    requires forall k :: 0 <= k < |s1| ==> !IsSpace(s1[k])
    requires forall k :: 0 <= k < |s2| ==> !IsSpace(s2[k])
    requires forall k :: 0 <= k < |s3| ==> !IsSpace(s3[k])
    ensures var m := s0 + " " + s1 + " " + s2 + " " + s3;
      forall i :: 0 <= i < |m| - 1 ==> !(IsSpace(m[i]) && IsSpace(m[i + 1]))
  {
    var m := s0 + " " + s1 + " " + s2 + " " + s3;
    forall i | 0 <= i < |m| - 1
      ensures !(IsSpace(m[i]) && IsSpace(m[i + 1]))
    {
      SpaceAt(s0, s1, s2, s3, i);
      SpaceAt(s0, s1, s2, s3, i + 1);
    }
  }

  lemma NoBlank(s: string)
    requires forall i :: 0 <= i < |s| ==> !IsSpace(s[i])
    ensures multiset(s)[' '] == 0
  {
  }

  /** In the joined message the only white space is at the three separators. */
  lemma SpaceAt(s0: string, s1: string, s2: string, s3: string, i: int)
    requires |s0| > 0 && |s1| > 0 && |s2| > 0 && |s3| > 0
    requires forall k :: 0 <= k < |s0| ==> !IsSpace(s0[k])
    requires forall k :: 0 <= k < |s1| ==> !IsSpace(s1[k])
    requires forall k :: 0 <= k < |s2| ==> !IsSpace(s2[k])
    requires forall k :: 0 <= k < |s3| ==> !IsSpace(s3[k])
    requires 0 <= i < |s0 + " " + s1 + " " + s2 + " " + s3|
    ensures var m := s0 + " " + s1 + " " + s2 + " " + s3;
      IsSpace(m[i]) ==> i == |s0| || i == |s0| + 1 + |s1| || i == |s0| + 1 + |s1| + 1 + |s2|
  {
  }

  /** A payload with no digit at all is rejected, and then no conversion is
      stored: the four variables keep their indeterminate values. */
  lemma NoDigitsNoCommand(s: string, garbage: Command)
    requires forall i :: 0 <= i < |s| ==> !IsDigit(s[i])
    ensures Decode(s) == None
    ensures Sscanf(s, garbage) == ScanResult(0, garbage)
  {
    var t := SkipSpaces(s);
    SkipSpacesSuffix(s);
    var u := if |t| > 0 && (t[0] == '-' || t[0] == '+') then t[1..] else t;
    assert u == [] || u[0] in s;
    assert ScanSigned(t) == None;
  }

  /** The messages the client sends for three example commands. */
  lemma ExampleMessages()
    ensures Encode(Command(999, 1999, 0, 1)) == "999 1999 0 1"
    ensures Encode(Command(999, 0, 1999, 0)) == "999 0 1999 0"
    ensures Encode(Command(999, 0, 0, -1)) == "999 0 0 -1"
  {
    ExampleRenderings();
  }

  lemma ExampleRenderings()
    ensures IntToDecimal(999) == "999" && IntToDecimal(1999) == "1999"
    ensures IntToDecimal(0) == "0" && IntToDecimal(1) == "1" && IntToDecimal(-1) == "-1"
  {
    assert NatToDecimal(99) == "99";
    assert NatToDecimal(199) == "199";
  }
}
