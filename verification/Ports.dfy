/** Port numbers in annotations: the ports of the vAccel agent, and the ports that a hyperlight guest may serve on. */
module Ports {
  import opened GoStrings
  import opened Strconv

  const MAX_PORT := 65535
  const MAX_ANNOTATION_VALUE_LEN := 4096

  predicate AllDigits(s: string) {
    forall i :: 0 <= i < |s| ==> IsDigit(s[i])
  }

  /** The whole of `s` matches `vAccelPortRe`, alternative by alternative. */
  predicate IsPortText(s: string) {
    AllDigits(s) &&
    ( (1 <= |s| <= 4 && s[0] != '0')
      || (|s| == 5 && '1' <= s[0] <= '5')
      || (|s| == 5 && s[0] == '6' && s[1] <= '4')
      || (|s| == 5 && s[..2] == "65" && s[2] <= '4')
      || (|s| == 5 && s[..3] == "655" && s[3] <= '2')
      || (|s| == 5 && s[..4] == "6553" && s[4] <= '5'))
  }

  function Digit(c: char): nat
    requires IsDigit(c)
  {
    c as nat - '0' as nat
  }

  lemma ParseLast(s: string)
    requires s != "" && AllDigits(s) && ParseDigits(s[..|s| - 1]).Some?
    ensures ParseDigits(s) == Some(10 * ParseDigits(s[..|s| - 1]).value + Digit(s[|s| - 1]))
  {
  }

  lemma {:induction false} DigitsParse(s: string)
    requires AllDigits(s)
    ensures ParseDigits(s).Some?
  {
    if s != "" {
      DigitsParse(s[..|s| - 1]);
      ParseLast(s);
    }
  }

  function Ten(k: nat): nat {
    if k == 0 then 1 else 10 * Ten(k - 1)
  }

  lemma {:induction false} DigitsBelow(s: string)
    requires AllDigits(s)
    ensures ParseDigits(s).Some? && ParseDigits(s).value < Ten(|s|)
  {
    if s != "" {
      DigitsBelow(s[..|s| - 1]);
      ParseLast(s);
    }
  }

  lemma {:induction false} DigitsAtLeast(s: string)
    requires AllDigits(s) && s != "" && s[0] != '0'
    ensures ParseDigits(s).Some? && ParseDigits(s).value >= Ten(|s| - 1)
  {
    var front := s[..|s| - 1];
    DigitsParse(front);
    ParseLast(s);
    if |s| > 1 {
      assert front[0] == s[0];
      DigitsAtLeast(front);
    }
  }

  lemma FiveDigits(s: string)
    requires |s| == 5 && AllDigits(s)
    ensures ParseDigits(s) == Some(10000 * Digit(s[0]) + 1000 * Digit(s[1]) + 100 * Digit(s[2]) + 10 * Digit(s[3])
                                   + Digit(s[4]))
  {
    var s4, s3, s2, s1 := s[..4], s[..3], s[..2], s[..1];
    assert s4[..3] == s3 && s3[..2] == s2 && s2[..1] == s1 && s1[..0] == "";
    hide ParseDigits;
    NoDigits();
    ParseLast(s1);
    ParseLast(s2);
    ParseLast(s3);
    ParseLast(s4);
    ParseLast(s);
  }

  lemma NoDigits()
    ensures ParseDigits("") == Some(0)
  {
  }

  lemma Tens()
    ensures Ten(0) == 1 && Ten(4) == 10000 && Ten(5) == 100000
  {
    assert Ten(1) == 10 && Ten(2) == 100 && Ten(3) == 1000;
  }

  lemma {:induction false} TenGrows(j: nat, k: nat)
    requires j <= k
    ensures Ten(j) <= Ten(k)
    decreases k
  {
    if j < k {
      TenGrows(j, k - 1);
    }
  }

  /** The grammar accepts exactly the canonical decimals of 1 to 65535. */
  lemma PortTextIsPort(s: string)
    ensures IsPortText(s) <==> exists n :: 1 <= n <= MAX_PORT && s == FormatUint(n)
  {
    if IsPortText(s) {
      PortTextInRange(s);
    }
    if n :| 1 <= n <= MAX_PORT && s == FormatUint(n) {
      PortIsText(n);
    }
  }

  lemma PortTextInRange(s: string)
    requires IsPortText(s)
    ensures ParseDigits(s).Some? && 1 <= ParseDigits(s).value <= MAX_PORT && FormatUint(ParseDigits(s).value) == s
  {
    hide ParseDigits, FormatUint, Ten;
    assert s[0] != '0';
    DigitsParse(s);
    FormatParseDigits(s);
    Tens();
    if |s| == 5 {
      FiveDigits(s);
      FivePortDigits(s);
    } else {
      hide IsPortText;
      DigitsBelow(s);
      TenGrows(|s|, 4);
    }
  }

  lemma FivePortDigits(s: string)
    requires IsPortText(s) && |s| == 5
    ensures 10000 * Digit(s[0]) + 1000 * Digit(s[1]) + 100 * Digit(s[2]) + 10 * Digit(s[3]) + Digit(s[4]) <= MAX_PORT
  {
    assert s[..2] == [s[0], s[1]] && s[..3] == [s[0], s[1], s[2]] && s[..4] == [s[0], s[1], s[2], s[3]];
  }

  lemma PortIsText(n: nat)
    requires 1 <= n <= MAX_PORT
    ensures IsPortText(FormatUint(n))
  {
    var s := FormatUint(n);
    ParseDigitsFormat(n);
    hide FormatUint, ParseDigits, Ten;
    assert AllDigits(s);
    DigitsAtLeast(s);
    Tens();
    if |s| > 5 {
      TenGrows(5, |s| - 1);
      assert false;
    }
    if |s| == 5 {
      FiveDigits(s);
      FiveDigitPort(s, Digit(s[0]), Digit(s[1]), Digit(s[2]), Digit(s[3]), Digit(s[4]));
    }
  }

  lemma FiveDigitPort(s: string, a: nat, b: nat, c: nat, d: nat, e: nat)
    requires |s| == 5 && AllDigits(s) && s[0] != '0'
    requires a == Digit(s[0]) && b == Digit(s[1]) && c == Digit(s[2]) && d == Digit(s[3]) && e == Digit(s[4])
    requires 10000 * a + 1000 * b + 100 * c + 10 * d + e <= MAX_PORT
    ensures IsPortText(s)
  {
    assert a <= 6;
    if a == 6 && b > 4 {
      assert b == 5 && s[..2] == "65";
      if c > 4 {
        assert c == 5 && s[..3] == "655";
        if d > 2 {
          assert d == 3 && s[..4] == "6553";
          assert e <= 5;
        }
      }
    }
  }

  // ------------------------------------------------------------------ the ports of a hyperlight guest

  /** `strings.Cut` at the first dash. */
  function CutDash(s: string): (r: (string, Option<string>))
    ensures s == r.0 + if r.1.Some? then "-" + r.1.value else ""
  {
    if s == "" then ("", None)
    else if s[0] == '-' then ("", Some(s[1..]))
    else ([s[0]] + CutDash(s[1..]).0, CutDash(s[1..]).1)
  }

  predicate OneToFiveDigits(s: string) {
    1 <= |s| <= 5 && AllDigits(s)
  }

  /** An item of `hyperlightPortsRe`. */
  predicate IsItem(item: string) {
    var (low, high) := CutDash(item);
    OneToFiveDigits(low) && (high.Some? ==> OneToFiveDigits(high.value))
  }

  datatype Range = Range(low: nat, high: nat)

  /** The ports that an item stands for. */
  function RangeOf(item: string): (r: Range)
    requires IsItem(item)
  {
    var (low, high) := CutDash(item);
    DigitsParse(low);
    if high.Some? then DigitsParse(high.value); Range(ParseDigits(low).value, ParseDigits(high.value).value)
    else Range(ParseDigits(low).value, ParseDigits(low).value)
  }

  predicate GoodItem(item: string) {
    IsItem(item) && 1 <= RangeOf(item).low <= RangeOf(item).high <= MAX_PORT
  }

  predicate AcceptsPorts(hyperlight: bool, val: string) {
    val == ""
    || (hyperlight && |val| <= MAX_ANNOTATION_VALUE_LEN
        && forall i :: 0 <= i < |Split(val, ',')| ==> GoodItem(Split(val, ',')[i]))
  }

  /** One to five decimal digits that stand for `n`. */
  predicate IsNumber(s: string, n: nat) {
    1 <= |s| <= 5 && (forall i :: 0 <= i < |s| ==> '0' <= s[i] <= '9') && ParseDigits(s) == Some(n)
  }

  /** A port within 1 to 65535, or a range of them from low to high. */
  ghost predicate IsPortItem(item: string) {
    (exists n :: 1 <= n <= 65535 && IsNumber(item, n))
    || exists low, high, a, b ::
         item == low + "-" + high && IsNumber(low, a) && IsNumber(high, b) && 1 <= a <= b <= 65535
  }

  lemma {:induction false} CutDashAt(low: string, high: string)
    requires '-' !in low
    ensures CutDash(low + "-" + high) == (low, Some(high)) && CutDash(low) == (low, None)
  {
    var s := low + "-" + high;
    if low == "" {
      assert s[0] == '-' && s[1..] == high;
    } else {
      assert low[0] in low && s[0] == low[0] && s[1..] == low[1..] + "-" + high;
      assert '-' !in low[1..];
      CutDashAt(low[1..], high);
      assert [low[0]] + low[1..] == low;
    }
  }

  /** What an item of an accepted list is. */
  lemma GoodItemExactly(item: string)
    ensures GoodItem(item) <==> IsPortItem(item)
  {
    if GoodItem(item) {
      var (low, high) := CutDash(item);
      hide CutDash, ParseDigits;
      DigitsParse(low);
      if high.Some? {
        DigitsParse(high.value);
        assert item == low + "-" + high.value;
        assert IsNumber(low, ParseDigits(low).value) && IsNumber(high.value, ParseDigits(high.value).value);
      } else {
        assert item == low + "" == low;
        assert IsNumber(item, ParseDigits(low).value);
      }
    }
    hide CutDash, ParseDigits;
    if n :| 1 <= n <= 65535 && IsNumber(item, n) {
      CutDashAt(item, "");
    }
    if low, high, a, b :| item == low + "-" + high && IsNumber(low, a) && IsNumber(high, b) && 1 <= a <= b <= 65535 {
      CutDashAt(low, high);
    }
  }

  /** `hyperlightPortsRe`: items separated by commas. */
  predicate MatchesPortsRe(val: string) {
    forall i :: 0 <= i < |Split(val, ',')| ==> IsItem(Split(val, ',')[i])
  }

  lemma AcceptsPortsExactly(hyperlight: bool, val: string)
    ensures AcceptsPorts(hyperlight, val) <==>
              val == "" || (hyperlight && |val| <= 4096 && forall item :: item in Split(val, ',') ==> IsPortItem(item))
  {
    hide Split, GoodItem, IsPortItem;
    forall item ensures GoodItem(item) <==> IsPortItem(item) {
      GoodItemExactly(item);
    }
    var items := Split(val, ',');
    assert forall i | 0 <= i < |items| :: items[i] in items;
  }

  /** `strconv.Atoi` with the error dropped. */
  function AtoiOrZero(s: string): int {
    if Atoi(s).Some? then Atoi(s).value else 0
  }

  lemma AtoiOfDigits(s: string)
    requires OneToFiveDigits(s)
    ensures ParseDigits(s).Some? && AtoiOrZero(s) == ParseDigits(s).value
  {
    DigitsBelow(s);
    Tens();
    TenGrows(|s|, 5);
    hide ParseDigits, Ten;
    assert IsDigit(s[0]);
  }

  /** `validateHyperlightPorts` */
  method ValidateHyperlightPorts(hyperlight: bool, val: string) returns (ok: bool)
    ensures ok == AcceptsPorts(hyperlight, val)
    ensures ok <==>
              val == "" || (hyperlight && |val| <= 4096 && forall item :: item in Split(val, ',') ==> IsPortItem(item))
  {
    AcceptsPortsExactly(hyperlight, val);
    hide Split, CutDash, ParseDigits, Atoi, IsPortItem;
    if val == "" {
      return true;
    }
    if !hyperlight {
      return false;
    }
    if |val| > MAX_ANNOTATION_VALUE_LEN {
      return false;
    }
    if !MatchesPortsRe(val) {
      return false;
    }
    var items := Split(val, ',');
    for k := 0 to |items|
      invariant forall i :: 0 <= i < k ==> GoodItem(items[i])
    {
      assert IsItem(items[k]);
      var (lowStr, rest) := CutDash(items[k]);
      var highStr := if rest.Some? then rest.value else lowStr;
      var low := AtoiOrZero(lowStr);
      var high := AtoiOrZero(highStr);
      AtoiOfDigits(lowStr);
      AtoiOfDigits(highStr);
      if low < 1 || high > MAX_PORT || low > high {
        return false;
      }
    }
    return true;
  }

  const PORT_FLAG := "--port="

  /** `portArgs` */
  method PortArgs(ports: string) returns (cmdArgs: seq<string>)
    ensures cmdArgs == PortFlags(ports)
  {
    hide Split;
    if ports == "" {
      return ["--port=all"];
    }
    cmdArgs := [];
    var items := Split(ports, ',');
    for k := 0 to |items|
      invariant |cmdArgs| == k && forall i :: 0 <= i < k ==> cmdArgs[i] == PORT_FLAG + items[i]
    {
      cmdArgs := cmdArgs + [PORT_FLAG + items[k]];
    }
  }

  function PortFlags(ports: string): seq<string> {
    if ports == "" then ["--port=all"]
    else seq(|Split(ports, ',')|, i requires 0 <= i < |Split(ports, ',')| => PORT_FLAG + Split(ports, ',')[i])
  }

  /** The flags for a list of ports: without one the guest may serve on any port. */
  lemma PortFlagsOf(ports: string)
    ensures ports == "" ==> PortFlags(ports) == ["--port=all"]
    ensures ports != "" ==>
              |PortFlags(ports)| == |Split(ports, ',')|
              && forall i :: 0 <= i < |Split(ports, ',')| ==> PortFlags(ports)[i] == "--port=" + Split(ports, ',')[i]
  {
    hide Split;
  }

  /** An accepted list of ports is turned into one flag an item: each is a port or a range from low to high within
      1 to 65535, and joined by commas they are the annotation again. */
  lemma AcceptedPortsBecomeFlags(hyperlight: bool, ports: string)
    requires AcceptsPorts(hyperlight, ports) && ports != ""
    ensures exists items ::
              && |items| == |PortFlags(ports)| && Join(items, ',') == ports
              && forall i :: 0 <= i < |items| ==> PortFlags(ports)[i] == "--port=" + items[i] && IsPortItem(items[i])
  {
    PortFlagsOf(ports);
    AcceptsPortsExactly(hyperlight, ports);
    JoinSplit(ports, ',');
    hide Split, IsPortItem, Join, PortFlags;
    var items := Split(ports, ',');
    assert forall i | 0 <= i < |items| :: items[i] in items;
  }
}
