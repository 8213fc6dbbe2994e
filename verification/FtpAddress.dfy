/** The data channel address of the FTP commands PORT and PASV: six decimal numbers h1,h2,h3,h4,p1,p2
    (section 4.1.2 of RFC 959), printed on one side and found by a regular expression on the other. */
module FtpAddress {
  import opened Basics
  import opened Decimal
  import opened Strings

  datatype Address = Address(ip1: nat, ip2: nat, ip3: nat, ip4: nat, port: nat)

  /** What becomes of a text that should hold an address; std::stoi throws on a number out of range. */
  datatype Decoded = Found(address: Address) | NoAddress | OutOfRange

  const INT_LIMIT := 0x8000_0000

  // ---- Printing -------------------------------------------------------------------------------------

  /** The numbers with commas between them. */
  function Join(ns: seq<nat>): string
    requires ns != []
  {
    if |ns| == 1 then Print(ns[0]) else Print(ns[0]) + "," + Join(ns[1..])
  }

  /** The six numbers of an address; the port goes as its high and its low byte. */
  function Six(a: Address): (ns: seq<nat>)
    ensures |ns| == 6
  {
    [a.ip1, a.ip2, a.ip3, a.ip4, a.port / 256 % 256, a.port % 256]
  }

  function PortCommand(a: Address): string {
    "PORT " + Join(Six(a)) + "\r\n"
  }

  const PASV_TEXT := "Entering Passive Mode ("

  function PasvReply(a: Address): string {
    "227 " + PASV_TEXT + Join(Six(a)) + ").\r\n"
  }

  // ---- The regular expression -------------------------------------------------------------------------

  /** `k` numbers with commas between them at the start of `s`, each as long as it can be. A shorter
      one would be followed by a digit instead of a comma. */
  function Numbers(s: string, k: nat): (r: Option<seq<string>>)
    ensures r.Some? ==> |r.value| == k && forall n :: n in r.value ==> n != [] && AllDigits(n)
  {
    if k == 0 then Some([])
    else
      var run := DigitRun(s);
      if run == [] then None
      else if k == 1 then Some([run])
      else if |run| == |s| || s[|run|] != ',' then None
      else match Numbers(s[|run| + 1..], k - 1)
        case Some(rest) => Some([run] + rest)
        case None => None
  }

  /** The leftmost place where six numbers match. */
  function Leftmost(s: string): (r: Option<seq<string>>)
    ensures r.Some? ==> |r.value| == 6 && forall n :: n in r.value ==> n != [] && AllDigits(n)
  {
    if Numbers(s, 6).Some? then Numbers(s, 6)
    else if s == [] then None
    else Leftmost(s[1..])
  }

  predicate LineEnd(c: char) {
    c == '\n' || c == '\r' || c == '\U{2028}' || c == '\U{2029}'
  }

  /** The groups of ^.*?(\d+),(\d+),(\d+),(\d+),(\d+),(\d+).*$ on the whole text; the dot stands for
      anything but a line end. */
  function Match(s: string): (r: Option<seq<string>>)
    ensures r.Some? ==> |r.value| == 6 && forall n :: n in r.value ==> n != [] && AllDigits(n)
  {
    if exists c :: c in s && LineEnd(c) then None else Leftmost(s)
  }

  /** There is no match exactly when the text holds a line end or no place of it has six numbers. */
  lemma NoMatchIff(s: string)
    ensures Match(s).None? <==>
      || '\n' in s || '\r' in s || '\U{2028}' in s || '\U{2029}' in s
      || forall i :: 0 <= i <= |s| ==> Numbers(s[i..], 6).None?
  {
    LeftmostIff(s);
    assert (exists c :: c in s && LineEnd(c)) <==> '\n' in s || '\r' in s || '\U{2028}' in s || '\U{2029}' in s;
  }

  /** The match is that of the first place that has six numbers. */
  lemma {:induction false} LeftmostIff(s: string)
    ensures Leftmost(s).None? <==> forall i :: 0 <= i <= |s| ==> Numbers(s[i..], 6).None?
    ensures Leftmost(s).Some? ==> exists i :: 0 <= i <= |s| && FirstPlace(s, i) && Leftmost(s) == Numbers(s[i..], 6)
  {
    assert s[0..] == s;
    if Numbers(s, 6).Some? {
      assert FirstPlace(s, 0);
    } else if s != [] {
      LeftmostIff(s[1..]);
      forall i | 1 <= i <= |s| ensures s[i..] == s[1..][i - 1..] {
      }
      if Leftmost(s).Some? {
        var i :| 0 <= i <= |s[1..]| && FirstPlace(s[1..], i) && Leftmost(s[1..]) == Numbers(s[1..][i..], 6);
        PlaceBehind(s, i);
      } else {
        forall i | 0 <= i <= |s| ensures Numbers(s[i..], 6).None? {
          if i > 0 {
            assert s[i..] == s[1..][i - 1..];
          }
        }
      }
    }
  }

  predicate FirstPlace(s: string, i: nat)
    requires i <= |s|
  {
    Numbers(s[i..], 6).Some? && forall k :: 0 <= k < i ==> Numbers(s[k..], 6).None?
  }

  lemma PlaceBehind(s: string, i: nat)
    requires s != [] && i <= |s| - 1 && FirstPlace(s[1..], i) && Numbers(s, 6).None?
    ensures FirstPlace(s, i + 1) && s[i + 1..] == s[1..][i..]
  {
    assert s[i + 1..] == s[1..][i..];
    forall k | 0 <= k < i + 1 ensures Numbers(s[k..], 6).None? {
      if k > 0 {
        var j := k - 1;
        assert s[k..] == s[1..][j..] && Numbers(s[1..][j..], 6).None?;
      } else {
        assert s[0..] == s;
      }
    }
  }

  function Decode(s: string): Decoded {
    match Match(s)
    case None => NoAddress
    case Some(g) =>
      assert forall i :: 0 <= i < 6 ==> g[i] in g;
      if exists n :: n in g && Read(n) >= INT_LIMIT then OutOfRange
      else Found(Address(Read(g[0]), Read(g[1]), Read(g[2]), Read(g[3]), Read(g[4]) % 256 * 256 + Read(g[5]) % 256))
  }

  // ---- The two readers -----------------------------------------------------------------------------------

  /** The server's side of PORT: the line without its end, cut at the blanks; the address is the
      second part. */
  function ServerReadsPort(line: string): Decoded
    requires |line| >= 2
  {
    var parts := Split(line[..|line| - 2], ' ');
    if parts[0] == "PORT" && |parts| > 1 then Decode(parts[1]) else NoAddress
  }

  /** S_ReplyCodeFromString on a reply whose code is made of digits; only the digits 227 give 227, so
      a sign or a blank, which std::stoi would take too, makes no difference to the client. */
  function ReplyCode(reply: string): nat {
    if |reply| >= 4 then Read(DigitRun(reply[..3])) else 0
  }

  /** The client's side of PASV: the line without its end must carry code 227, and the address is
      looked for behind the first four characters. */
  function ClientReadsPasv(line: string): Decoded
    requires |line| >= 2
  {
    var reply := line[..|line| - 2];
    if |reply| >= 4 && ReplyCode(reply) == 227 then Decode(reply[4..]) else NoAddress
  }

  // ---- Round trips ----------------------------------------------------------------------------------------

  lemma LastNumber(digits: string, tail: string)
    requires digits != [] && AllDigits(digits) && (tail == [] || !IsDigit(tail[0]))
    ensures Numbers(digits + tail, 1) == Some([digits])
  {
    DigitRunOf(digits, tail);
  }

  lemma OneMoreNumber(digits: string, s: string, k: nat)
    requires digits != [] && AllDigits(digits) && k > 0 && Numbers(s, k).Some?
    ensures Numbers(digits + ("," + s), k + 1) == Some([digits] + Numbers(s, k).value)
  {
    var rest := "," + s;
    DigitRunOf(digits, rest);
    assert (digits + rest)[|digits|] == ',' && (digits + rest)[|digits| + 1..] == s;
  }

  lemma {:induction false} NumbersOfJoin(ns: seq<nat>, tail: string)
    requires ns != [] && (tail == [] || !IsDigit(tail[0]))
    ensures Numbers(Join(ns) + tail, |ns|) == Some(Printed(ns))
  {
    if |ns| == 1 {
      LastNumber(Print(ns[0]), tail);
      assert Printed(ns) == [Print(ns[0])];
    } else {
      var first, rest := Print(ns[0]), Join(ns[1..]);
      NumbersOfJoin(ns[1..], tail);
      OneMoreNumber(first, rest + tail, |ns| - 1);
      assert Join(ns) + tail == first + ("," + (rest + tail)) by { Regroup(first, rest, tail); }
      assert Printed(ns) == [first] + Printed(ns[1..]);
    }
  }

  lemma Regroup(first: string, rest: string, tail: string)
    ensures first + "," + rest + tail == first + ("," + (rest + tail))
  {
  }

  function Printed(ns: seq<nat>): (r: seq<string>)
    ensures |r| == |ns| && forall i :: 0 <= i < |ns| ==> r[i] == Print(ns[i])
  {
    if ns == [] then [] else [Print(ns[0])] + Printed(ns[1..])
  }

  lemma NoComma(n: nat)
    ensures ',' !in Print(n)
  {
  }

  /** The printed numbers stand between commas. */
  lemma {:induction false} JoinIsSplit(ns: seq<nat>)
    requires ns != []
    ensures Split(Join(ns), ',') == Printed(ns)
  {
    NoComma(ns[0]);
    SplitWithout(Print(ns[0]), ',');
    if |ns| > 1 {
      JoinIsSplit(ns[1..]);
      SplitAtDelimiter(Print(ns[0]), ',', Join(ns[1..]));
      assert Print(ns[0]) + "," == Print(ns[0]) + [','];
    }
  }

  lemma {:induction false} LeftmostSkips(prefix: string, s: string)
    requires forall c :: c in prefix ==> !IsDigit(c)
    requires Leftmost(s).Some?
    ensures Leftmost(prefix + s) == Leftmost(s)
  {
    if prefix == [] {
      assert prefix + s == s;
    } else {
      assert prefix[0] in prefix && (prefix + s)[0] == prefix[0];
      assert (prefix + s)[1..] == prefix[1..] + s;
      assert DigitRun(prefix + s) == [];
      LeftmostSkips(prefix[1..], s);
    }
  }

  lemma {:induction false} JoinHasNoLineEnd(ns: seq<nat>)
    requires ns != []
    ensures forall c :: c in Join(ns) ==> IsDigit(c) || c == ','
  {
    if |ns| > 1 {
      JoinHasNoLineEnd(ns[1..]);
    }
  }

  predicate Plain(s: string) {
    forall c :: c in s ==> !IsDigit(c) && !LineEnd(c)
  }

  lemma MatchPrinted(prefix: string, ns: seq<nat>, tail: string)
    requires |ns| == 6 && Plain(prefix) && Plain(tail)
    ensures Match(prefix + (Join(ns) + tail)) == Some(Printed(ns))
  {
    var s := prefix + (Join(ns) + tail);
    assert tail == [] || tail[0] in tail;
    NumbersOfJoin(ns, tail);
    LeftmostSkips(prefix, Join(ns) + tail);
    JoinHasNoLineEnd(ns);
    assert forall c :: c in s ==> c in prefix || c in Join(ns) || c in tail;
  }

  lemma ReadPrinted(ns: seq<nat>, i: nat)
    requires i < |ns|
    ensures Read(Printed(ns)[i]) == ns[i]
  {
    ReadPrint(ns[i]);
  }

  /** Six printed numbers, with anything without digits around them, are found; they are read back if
      and only if each fits in an int, and otherwise std::stoi throws. Nothing checks that they are
      octets, and the port keeps the low byte of its two numbers. */
  lemma DecodePrinted(prefix: string, ns: seq<nat>, tail: string)
    requires |ns| == 6 && Plain(prefix) && Plain(tail)
    ensures Decode(prefix + (Join(ns) + tail)) ==
      if forall n :: n in ns ==> n < 0x8000_0000
      then Found(Address(ns[0], ns[1], ns[2], ns[3], ns[4] % 256 * 256 + ns[5] % 256))
      else OutOfRange
  {
    MatchPrinted(prefix, ns, tail);
    var g := Printed(ns);
    forall i | 0 <= i < 6 ensures Read(g[i]) == ns[i] {
      ReadPrinted(ns, i);
    }
    PrintedFits(ns);
  }

  lemma PrintedFits(ns: seq<nat>)
    ensures (exists n :: n in Printed(ns) && Read(n) >= INT_LIMIT) <==> exists n :: n in ns && n >= INT_LIMIT
  {
    var g := Printed(ns);
    if n :| n in g && Read(n) >= INT_LIMIT {
      var i :| 0 <= i < |ns| && g[i] == n;
      ReadPrinted(ns, i);
      assert ns[i] in ns;
    }
    if n :| n in ns && n >= INT_LIMIT {
      var i :| 0 <= i < |ns| && ns[i] == n;
      ReadPrinted(ns, i);
      assert g[i] in g;
    }
  }

  ghost predicate IsAddress(a: Address) {
    a.ip1 < 256 && a.ip2 < 256 && a.ip3 < 256 && a.ip4 < 256 && a.port < 65536
  }

  lemma BytesOfPort(port: nat)
    requires port < 65536
    ensures port / 256 % 256 % 256 * 256 + port % 256 % 256 == port
  {
  }

  lemma SixRoundTrips(a: Address, ns: seq<nat>, prefix: string, tail: string)
    requires IsAddress(a) && ns == Six(a) && Plain(prefix) && Plain(tail)
    ensures Decode(prefix + (Join(ns) + tail)) == Found(a)
  {
    assert forall n :: n in ns ==> n < INT_LIMIT;
    DecodePrinted(prefix, ns, tail);
    BytesOfPort(a.port);
  }

  /** Every address that the client prints in a PORT command is the one the server connects to. */
  lemma PortRoundTrip(a: Address)
    requires IsAddress(a)
    ensures ServerReadsPort(PortCommand(a)) == Found(a)
  {
    var six := Join(Six(a));
    JoinHasNoLineEnd(Six(a));
    PortParts(six);
    SixRoundTrips(a, Six(a), [], []);
    assert [] + (six + []) == six;
  }

  lemma PortParts(six: string)
    requires ' ' !in six
    ensures var line := "PORT " + six + "\r\n"; Split(line[..|line| - 2], ' ') == ["PORT", six]
  {
    var line := "PORT " + six + "\r\n";
    var verb := "PORT";
    assert line[..|line| - 2] == verb + [' '] + six;
    SplitWithout(six, ' ');
    SplitWithout(verb, ' ');
    SplitAtDelimiter(verb, ' ', six);
  }

  /** Every address that the server prints in its reply to PASV is the one the client connects to. */
  lemma PasvRoundTrip(a: Address)
    requires IsAddress(a)
    ensures ClientReadsPasv(PasvReply(a)) == Found(a)
  {
    var line, six := PasvReply(a), Join(Six(a));
    var reply := line[..|line| - 2];
    assert reply == "227 " + (PASV_TEXT + (six + ").")) by { ReplyParts(six); }
    assert reply[..3] == "227";
    Code227Iff(reply);
    PasvTextIsPlain();
    SixRoundTrips(a, Six(a), PASV_TEXT, ").");
    assert reply[4..] == PASV_TEXT + (six + ").");
  }

  lemma ReadShort(s: string)
    requires AllDigits(s) && |s| <= 2
    ensures Read(s) < 100
  {
    if s != [] {
      var t := s[..|s| - 1];
      assert |t| <= 1 && (t != [] ==> t[..|t| - 1] == []);
    }
  }

  lemma ReadThree(s: string)
    requires AllDigits(s) && |s| == 3
    ensures Read(s) == 100 * (s[0] as int - 48) + 10 * (s[1] as int - 48) + (s[2] as int - 48)
  {
    var t, u := s[..2], s[..1];
    assert t[..1] == u && u[..0] == [];
    assert Read(u) == s[0] as int - 48;
    assert Read(t) == Read(u) * 10 + (s[1] as int - 48);
  }

  /** Only a reply that starts with the digits 227, and has a fourth character, has code 227. */
  lemma Code227Iff(reply: string)
    ensures ReplyCode(reply) == 227 <==> |reply| >= 4 && reply[..3] == "227"
  {
    if |reply| >= 4 {
      var code := reply[..3];
      if AllDigits(code) {
        DigitRunOf(code, []);
        assert code + [] == code;
        ReadThree(code);
      } else {
        ReadShort(DigitRun(code));
      }
    }
  }

  /** A reply with another code, or a command other than PORT, gives no address, whatever it holds. */
  lemma NoAddressOtherwise(line: string)
    requires |line| >= 2
    ensures |line| < 6 || line[..3] != "227" ==> ClientReadsPasv(line) == NoAddress
    ensures Split(line[..|line| - 2], ' ')[0] != "PORT" ==> ServerReadsPort(line) == NoAddress
  {
    var reply := line[..|line| - 2];
    Code227Iff(reply);
    if |line| >= 6 {
      assert reply[..3] == line[..3];
    }
  }

  lemma ReplyParts(six: string)
    ensures var line := "227 " + PASV_TEXT + six + ").\r\n";
      line[..|line| - 2] == "227 " + (PASV_TEXT + (six + ")."))
  {
  }

  lemma PasvTextIsPlain()
    ensures Plain(PASV_TEXT) && Plain(").")
  {
  }
}
