/** Python's `ipaddress.ip_address` on a text, as the configuration reader
    applies it to the HTTP server's listen address: the text is an IPv4
    address, or else an IPv6 address, or the call raises ValueError. IPv4
    texts are parsed to their four octets; IPv6 texts are only checked. */
module IpAddress {
  import opened Wrappers
  import PyText

  predicate IsDecimalDigit(c: char) {
    '0' <= c <= '9'
  }

  predicate AllDecimal(s: string) {
    forall i :: 0 <= i < |s| ==> IsDecimalDigit(s[i])
  }

  /** The value of a text of decimal digits. */
  function DecimalValue(s: string): nat
    requires AllDecimal(s)
  {
    PyText.DigitsValue(PyText.RunDigits(s, 10), 10)
  }

  /** `IPv4Address._parse_octet`: one to three ASCII decimal digits, no
      leading zero, at most 255. */
  function ParseOctet(s: string): (r: Option<nat>)
    ensures r.Some? ==> r.value < 256
  {
    if s == [] || !AllDecimal(s) || |s| > 3 then None
    else if s != "0" && s[0] == '0' then None
    else if DecimalValue(s) > 255 then None
    else Some(DecimalValue(s))
  }

  /** `IPv4Address(s)`: no '/', and exactly four dot-separated octets. */
  function ParseV4(s: string): (r: Option<seq<nat>>)
    ensures r.Some? ==> |r.value| == 4 && forall k :: 0 <= k < 4 ==> r.value[k] < 256
  {
    var parts := PyText.Split(s, '.');
    if '/' in s || |parts| != 4 then None
    else
      match (ParseOctet(parts[0]), ParseOctet(parts[1]), ParseOctet(parts[2]), ParseOctet(parts[3]))
      case (Some(a), Some(b), Some(c), Some(d)) => Some([a, b, c, d])
      case _ => None
  }

  /** `str` of an IPv4 address: its octets in decimal, joined by dots. */
  function FormatV4(octets: seq<nat>): (s: string)
    requires |octets| == 4
  {
    PyText.Join([PyText.IntToString(octets[0]), PyText.IntToString(octets[1]),
                 PyText.IntToString(octets[2]), PyText.IntToString(octets[3])], '.')
  }

  /** `IPv6Address._parse_hextet`: one to four hexadecimal digits. */
  predicate IsHextet(s: string) {
    0 < |s| <= 4 && forall i :: 0 <= i < |s| ==> PyText.DigitOf(s[i], 16).Some?
  }

  /** The colon-separated parts of an IPv6 address text without its zone:
      at least three, and a last part holding a dot must be an IPv4
      address, which stands for two hextets. `None` is the ValueError. */
  function V6Parts(a: string): (r: Option<seq<string>>)
  {
    var parts := PyText.Split(a, ':');
    if |parts| < 3 then None
    else if '.' in parts[|parts| - 1] then
      match ParseV4(parts[|parts| - 1])
      case None => None
      case Some(o) =>
        Some(parts[..|parts| - 1] + [PyText.HexString(o[0] * 256 + o[1]), PyText.HexString(o[2] * 256 + o[3])])
    else Some(parts)
  }

  /** No empty part between the first and the last: no `::` inside. */
  predicate NoSkip(parts: seq<string>) {
    forall i :: 1 <= i < |parts| - 1 ==> parts[i] != ""
  }

  /** Part `k` is the only empty part between the first and the last. */
  predicate OnlySkipAt(parts: seq<string>, k: int) {
    1 <= k < |parts| - 1 && parts[k] == ""
    && forall i :: 1 <= i < |parts| - 1 && i != k ==> parts[i] != ""
  }

  /** With the `::` at part `k`: an empty first part needs `k == 1`, an
      empty last part needs `k` to be the last but one, the parts before
      and after it are hextets, and they leave at least one hextet to the
      `::`. */
  predicate SkipValid(parts: seq<string>, k: int)
    requires OnlySkipAt(parts, k)
  {
    var hi := if parts[0] == "" then k - 1 else k;
    var lo := if parts[|parts| - 1] == "" then |parts| - k - 2 else |parts| - k - 1;
    && (parts[0] == "" ==> hi == 0)
    && (parts[|parts| - 1] == "" ==> lo == 0)
    && 8 - (hi + lo) >= 1
    && (forall i :: 0 <= i < hi ==> IsHextet(parts[i]))
    && (forall i :: |parts| - lo <= i < |parts| ==> IsHextet(parts[i]))
  }

  /** `IPv6Address._ip_int_from_string` after the parts are split: at most
      nine parts; without `::` exactly eight hextets; with it, one `::`
      only, placed as `SkipValid` says. */
  predicate V6PartsValid(parts: seq<string>) {
    && |parts| <= 9
    && (NoSkip(parts) ==> |parts| == 8 && forall i :: 0 <= i < 8 ==> IsHextet(parts[i]))
    && (!NoSkip(parts) ==> exists k :: 1 <= k < |parts| - 1 && OnlySkipAt(parts, k) && SkipValid(parts, k))
  }

  /** The text before the first '%' and the zone after it. */
  function Before(s: string, c: char): (r: string)
    ensures |r| <= |s| && r == s[..|r|] && c !in r
    ensures |r| < |s| ==> s[|r|] == c
  {
    if s == [] || s[0] == c then [] else [s[0]] + Before(s[1..], c)
  }

  /** `IPv6Address(s)`: no '/', a zone after '%' that is non-empty and
      holds no further '%', and valid parts before it. */
  predicate IsV6(s: string) {
    var a := Before(s, '%');
    var zone := if |a| < |s| then s[|a| + 1..] else [];
    && '/' !in s
    && (|a| < |s| ==> zone != [] && '%' !in zone)
    && match V6Parts(a)
       case None => false
       case Some(parts) => V6PartsValid(parts)
  }

  /** `ip_address(s)`: an IPv4 address first, then an IPv6 address;
      anything else raises ValueError. The address is kept as its text. */
  function Check(s: string): (r: Result<string>)
    ensures r.Ok? <==> ParseV4(s).Some? || IsV6(s)
    ensures r.Ok? ==> r.value == s
    ensures r.Err? ==> r.error == ValueError
  {
    if ParseV4(s).Some? || IsV6(s) then Ok(s) else Err(ValueError)
  }

  // ------------------------------------------------------------ IPv4 round trips

  /** A small number's decimal digits: one to three, no leading zero. */
  lemma SmallDigits(n: nat)
    requires n < 256
    ensures var ds := PyText.NatDigits(n, 10);
      |ds| <= 3 && (n > 0 ==> ds[0] > 0) && (n == 0 ==> ds == [0])
  {
    if n >= 10 {
      assert PyText.NatDigits(n, 10) == PyText.NatDigits(n / 10, 10) + [n % 10];
      if n >= 100 {
        assert PyText.NatDigits(n / 10, 10) == PyText.NatDigits(n / 100, 10) + [(n / 10) % 10];
      }
    }
  }

  /** An octet's decimal text parses back to it. */
  lemma OctetRoundTrip(n: nat)
    requires n < 256
    ensures ParseOctet(PyText.IntToString(n)) == Some(n)
    ensures AllDecimal(PyText.IntToString(n))
  {
    var s := PyText.IntToString(n);
    var ds := PyText.NatDigits(n, 10);
    PyText.NatToStringShape(n, 10);
    SmallDigits(n);
    assert forall i :: 0 <= i < |s| ==> IsDecimalDigit(s[i]) by {
      forall i | 0 <= i < |s| ensures IsDecimalDigit(s[i]) {
        assert PyText.DigitOf(s[i], 10).Some?;
      }
    }
    PyText.DigitCharsAt(ds, 0);
    if n == 0 {
      assert s == "0";
    }
  }

  /** An octet text that parses is the decimal text of its value. */
  lemma OctetCanonical(s: string)
    requires ParseOctet(s).Some?
    ensures PyText.IntToString(ParseOctet(s).value) == s
  {
    var n := ParseOctet(s).value;
    var t := PyText.IntToString(n);
    OctetRoundTrip(n);
    PyText.NatToStringShape(n, 10);
    SmallDigits(n);
    DecimalCanonical(s, t);
  }

  /** Two decimal texts without leading zeros and with the same value are
      the same text. */
  lemma DecimalCanonical(s: string, t: string)
    requires 0 < |s| <= 3 && 0 < |t| <= 3 && AllDecimal(s) && AllDecimal(t)
    requires (s == "0" || s[0] != '0') && (t == "0" || t[0] != '0')
    requires DecimalValue(s) == DecimalValue(t)
    ensures s == t
  {
    DecimalRange(s);
    DecimalRange(t);
    assert |s| == |t|;
    if |s| == 1 {
      assert s == [s[0]] && t == [t[0]];
    } else if |s| == 2 {
      assert s == [s[0], s[1]] && t == [t[0], t[1]];
    } else {
      assert s == [s[0], s[1], s[2]] && t == [t[0], t[1], t[2]];
    }
  }

  /** The digit values of a decimal text, one per character. */
  lemma {:induction false} DigitsOf(s: string)
    requires AllDecimal(s)
    ensures PyText.RunDigits(s, 10) == seq(|s|, i requires 0 <= i < |s| => s[i] as int - '0' as int)
  {
    if s != [] {
      DigitsOf(s[1..]);
    }
  }

  lemma DigitsValue1(a: nat)
    ensures PyText.DigitsValue([a], 10) == a
  {
    assert [a][..0] == [];
  }

  lemma DigitsValue2(a: nat, b: nat)
    ensures PyText.DigitsValue([a, b], 10) == a * 10 + b
  {
    assert [a, b][..1] == [a];
    DigitsValue1(a);
  }

  lemma DigitsValue3(a: nat, b: nat, c: nat)
    ensures PyText.DigitsValue([a, b, c], 10) == (a * 10 + b) * 10 + c
  {
    assert [a, b, c][..2] == [a, b];
    DigitsValue2(a, b);
  }

  function Dig(c: char): nat
    requires IsDecimalDigit(c)
  {
    c as int - '0' as int
  }

  /** The value of a decimal text of one to three digits without a leading
      zero, and the range its length puts it in. */
  lemma DecimalRange(s: string)
    requires 0 < |s| <= 3 && AllDecimal(s) && (s == "0" || s[0] != '0')
    ensures |s| == 1 ==> DecimalValue(s) < 10 && DecimalValue(s) == Dig(s[0])
    ensures |s| == 2 ==> 10 <= DecimalValue(s) < 100 && DecimalValue(s) == Dig(s[0]) * 10 + Dig(s[1])
    ensures |s| == 3 ==> 100 <= DecimalValue(s) && DecimalValue(s) == (Dig(s[0]) * 10 + Dig(s[1])) * 10 + Dig(s[2])
  {
    DigitsOf(s);
    var ds := PyText.RunDigits(s, 10);
    if |s| == 1 {
      assert ds == [Dig(s[0])];
      DigitsValue1(Dig(s[0]));
    } else if |s| == 2 {
      assert ds == [Dig(s[0]), Dig(s[1])];
      DigitsValue2(Dig(s[0]), Dig(s[1]));
    } else {
      assert ds == [Dig(s[0]), Dig(s[1]), Dig(s[2])];
      DigitsValue3(Dig(s[0]), Dig(s[1]), Dig(s[2]));
    }
  }

  /** Every IPv4 address's text parses back to it. */
  lemma V4RoundTrip(octets: seq<nat>)
    requires |octets| == 4 && forall k :: 0 <= k < 4 ==> octets[k] < 256
    ensures ParseV4(FormatV4(octets)) == Some(octets)
  {
    var texts := [PyText.IntToString(octets[0]), PyText.IntToString(octets[1]),
                  PyText.IntToString(octets[2]), PyText.IntToString(octets[3])];
    forall k | 0 <= k < 4
      ensures ParseOctet(texts[k]) == Some(octets[k]) && '.' !in texts[k] && '/' !in texts[k]
    {
      OctetRoundTrip(octets[k]);
    }
    FourOctetsAccepted(FormatV4(octets), texts, octets);
  }

  /** An IPv4 text that parses is already in the form `str` gives it:
      `ip_address` keeps IPv4 texts unchanged. */
  lemma V4Canonical(s: string)
    requires ParseV4(s).Some?
    ensures FormatV4(ParseV4(s).value) == s
  {
    var parts := PyText.Split(s, '.');
    var o := ParseV4(s).value;
    assert |parts| == 4;
    assert o == [ParseOctet(parts[0]).value, ParseOctet(parts[1]).value,
                 ParseOctet(parts[2]).value, ParseOctet(parts[3]).value];
    var texts := [PyText.IntToString(o[0]), PyText.IntToString(o[1]),
                  PyText.IntToString(o[2]), PyText.IntToString(o[3])];
    OctetCanonical(parts[0]);
    OctetCanonical(parts[1]);
    OctetCanonical(parts[2]);
    OctetCanonical(parts[3]);
    assert texts == parts;
    SplitThenJoin(s, '.');
  }

  /** Joining the parts of a split gives the text back. */
  lemma {:induction false} SplitThenJoin(s: string, sep: char)
    ensures PyText.Join(PyText.Split(s, sep), sep) == s
  {
    if s != [] {
      SplitThenJoin(s[1..], sep);
      var rest := PyText.Split(s[1..], sep);
      if s[0] == sep {
        assert PyText.Split(s, sep) == [""] + rest;
        assert ([""] + rest)[1..] == rest;
      } else {
        var parts := PyText.Split(s, sep);
        assert parts == [[s[0]] + rest[0]] + rest[1..];
        if |rest| == 1 {
          assert parts == [[s[0]] + rest[0]];
        } else {
          assert parts[1..] == rest[1..];
          assert PyText.Join(rest, sep) == rest[0] + [sep] + PyText.Join(rest[1..], sep);
        }
      }
    }
  }

  /** A character that is neither the separator nor in any part is not in
      the joined text. */
  lemma {:induction false} JoinChars(parts: seq<string>, sep: char, c: char)
    requires |parts| > 0 && c != sep
    requires forall k :: 0 <= k < |parts| ==> c !in parts[k]
    ensures c !in PyText.Join(parts, sep)
  {
    if |parts| > 1 {
      JoinChars(parts[1..], sep, c);
    }
  }

  /** Dot-free parts without '/' joined by dots split back into the parts,
      and the joined text has no '/'. */
  lemma JoinedParts(parts: seq<string>)
    requires |parts| == 4 && forall k :: 0 <= k < 4 ==> '.' !in parts[k] && '/' !in parts[k]
    ensures PyText.Split(PyText.Join(parts, '.'), '.') == parts && '/' !in PyText.Join(parts, '.')
  {
    PyText.SplitJoin(parts, '.');
    JoinChars(parts, '.', '/');
  }

  /** The dotted text of four parts, spelled out. */
  lemma JoinFour(a: string, b: string, c: string, d: string)
    ensures PyText.Join([a, b, c, d], '.') == a + "." + b + "." + c + "." + d
  {
    assert PyText.Join([d], '.') == d;
    assert PyText.Join([c, d], '.') == c + "." + d by {
      assert [c, d][1..] == [d];
    }
    assert PyText.Join([b, c, d], '.') == b + "." + (c + "." + d) by {
      assert [b, c, d][1..] == [c, d];
    }
    assert [a, b, c, d][1..] == [b, c, d];
  }

  /** Without the separator a text is one part. */
  lemma OnePart(s: string, sep: char)
    requires sep !in s
    ensures |PyText.Split(s, sep)| == 1
  {
    PyText.SplitNoSep(s, sep);
  }

  /** Four dot-separated octets without '/' are an IPv4 address. */
  lemma FourOctetsAccepted(s: string, parts: seq<string>, octets: seq<nat>)
    requires |parts| == 4 && |octets| == 4 && s == PyText.Join(parts, '.')
    requires forall k :: 0 <= k < 4 ==> '.' !in parts[k] && '/' !in parts[k]
    requires ParseOctet(parts[0]) == Some(octets[0]) && ParseOctet(parts[1]) == Some(octets[1])
    requires ParseOctet(parts[2]) == Some(octets[2]) && ParseOctet(parts[3]) == Some(octets[3])
    ensures ParseV4(s) == Some(octets) && Check(s) == Ok(s)
  {
    JoinedParts(parts);
    assert [octets[0], octets[1], octets[2], octets[3]] == octets;
  }

  /** The IPv4 loopback address. */
  const Loopback: string := "127.0.0.1"

  /** The loopback address is the dotted text of four parts without '.'
      or '/'. */
  lemma LoopbackJoined()
    ensures Loopback == PyText.Join(["127", "0", "0", "1"], '.')
    ensures forall k :: 0 <= k < 4 ==> '.' !in ["127", "0", "0", "1"][k] && '/' !in ["127", "0", "0", "1"][k]
  {
    JoinFour("127", "0", "0", "1");
  }

  /** The parts of the loopback address are the octets 127, 0 and 1. */
  lemma LoopbackOctets()
    ensures ParseOctet("127") == Some(127)
    ensures ParseOctet("0") == Some(0)
    ensures ParseOctet("1") == Some(1)
  {
    DecimalRange("127");
    DecimalRange("0");
    DecimalRange("1");
  }

  /** The loopback address is an IPv4 address. */
  lemma LoopbackAccepted()
    ensures ParseV4(Loopback) == Some([127, 0, 0, 1])
    ensures Check(Loopback) == Ok(Loopback)
  {
    LoopbackJoined();
    LoopbackOctets();
    FourOctetsAccepted(Loopback, ["127", "0", "0", "1"], [127, 0, 0, 1]);
  }

  /** A text without ':' is no IPv6 address. */
  lemma NoColonNotV6(s: string)
    requires ':' !in s
    ensures !IsV6(s)
  {
    var a := Before(s, '%');
    assert ':' !in a by {
      forall i | 0 <= i < |a| ensures a[i] != ':' {
        assert a[i] == s[i];
      }
    }
    OnePart(a, ':');
  }

  /** A host name and the empty text are no address. */
  lemma NamesRefused()
    ensures Check("localhost").Err? && Check("").Err?
  {
    OnePart("localhost", '.');
    NoColonNotV6("localhost");
    OnePart("", '.');
    NoColonNotV6("");
  }

  /** Three octets are no address. */
  lemma ThreeOctetsRefused()
    ensures Check("1.2.3").Err?
  {
    NoColonNotV6("1.2.3");
    PyText.SplitNoSep("3", '.');
    PyText.SplitAfterPart("2", '.', "3");
    assert "2" + ['.'] + "3" == "2.3";
    PyText.SplitAfterPart("1", '.', "2.3");
    assert "1" + ['.'] + "2.3" == "1.2.3";
  }

  /** Four dot-separated parts without '/' or ':' are no address when one
      of them is no octet. */
  lemma FourPartsRefused(s: string, parts: seq<string>)
    requires |parts| == 4 && s == PyText.Join(parts, '.') && ':' !in s
    requires forall k :: 0 <= k < 4 ==> '.' !in parts[k] && '/' !in parts[k]
    requires ParseOctet(parts[0]).None? || ParseOctet(parts[1]).None? || ParseOctet(parts[2]).None? || ParseOctet(parts[3]).None?
    ensures Check(s).Err?
  {
    NoColonNotV6(s);
    assert ParseV4(s).None? by {
      JoinedParts(parts);
    }
  }

  /** An octet with a leading zero is refused. */
  lemma LeadingZeroRefused()
    ensures Check("01.2.3.4").Err?
  {
    var parts := ["01", "2", "3", "4"];
    assert ParseOctet(parts[0]).None? by {
      assert "01" != "0" && "01"[0] == '0';
    }
    JoinFour("01", "2", "3", "4");
    FourPartsRefused("01.2.3.4", parts);
  }

  /** Three digits from "256" up are no octet. */
  lemma OctetAbove(t: string)
    requires |t| == 3 && AllDecimal(t) && t[0] != '0' && (t[0] > '2' || (t[0] == '2' && (t[1] > '5' || (t[1] == '5' && t[2] > '5'))))
    ensures ParseOctet(t).None?
  {
    DecimalRange(t);
  }

  /** An octet above 255 is refused. */
  lemma LargeOctetRefused()
    ensures Check("256.0.0.1").Err?
  {
    var parts := ["256", "0", "0", "1"];
    OctetAbove(parts[0]);
    JoinFour("256", "0", "0", "1");
    FourPartsRefused("256.0.0.1", parts);
  }
}
