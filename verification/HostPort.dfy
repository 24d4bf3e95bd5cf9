/**
 Decimal numerals and host:port texts, as Go's `strconv` and `net` packages read and write them,
 and the two facts the peer lists need: reading back a printed number and reading back a
 printed endpoint.
 */
module HostPort {
  import opened Text

  // --- numerals -------------------------------------------------------------------

  predicate IsDigit(c: char) {
    '0' <= c <= '9'
  }

  predicate AllDigits(s: string) {
    forall i :: 0 <= i < |s| ==> IsDigit(s[i])
  }

  function Digit(d: nat): (c: char)
    requires d < 10
    ensures IsDigit(c) && c as int - '0' as int == d
  {
    ('0' as int + d) as char
  }

  /** `strconv.Itoa` on the non-negative numbers, which is all the addon lists hold. */
  function Itoa(n: nat): (s: string)
    ensures |s| >= 1 && AllDigits(s)
  {
    if n < 10 then [Digit(n)] else Itoa(n / 10) + [Digit(n % 10)]
  }

  function DigitsValue(s: string): (n: nat)
    requires AllDigits(s)
  {
    if s == "" then 0
    else DigitsValue(s[..|s| - 1]) * 10 + (s[|s| - 1] as int - '0' as int)
  }

  const MAX_INT: int := 0x7FFF_FFFF_FFFF_FFFF

  /** `strconv.Atoi`: an optional sign, then digits, in the range of a 64-bit int. */
  function Atoi(s: string): (r: Option<int>)
    ensures r.Some? ==> -MAX_INT - 1 <= r.value <= MAX_INT
  {
    var negative := s != "" && s[0] == '-';
    var digits := if s != "" && (s[0] == '-' || s[0] == '+') then s[1..] else s;
    if digits == "" || !AllDigits(digits) then None
    else
      var n: int := DigitsValue(digits);
      if negative then (if n <= MAX_INT + 1 then Some(0 - n) else None)
      else if n <= MAX_INT then Some(n) else None
  }

  lemma {:induction false} DigitsValueOfItoa(n: nat)
    ensures DigitsValue(Itoa(n)) == n
  {
    if n >= 10 {
      DigitsValueOfItoa(n / 10);
      assert Itoa(n)[..|Itoa(n)| - 1] == Itoa(n / 10);
    }
  }

  /** Reading a printed number gives the number back. */
  lemma AtoiOfItoa(n: nat)
    requires n <= MAX_INT
    ensures Atoi(Itoa(n)) == Some(n)
  {
    DigitsValueOfItoa(n);
  }

  // --- host:port --------------------------------------------------------------------

  datatype HostAndPort = HostAndPort(host: string, port: string)

  /** `net.JoinHostPort`: a host with a colon (an IPv6 address) is bracketed. */
  function JoinHostPort(host: string, port: string): string {
    if ':' in host then "[" + host + "]:" + port else host + ":" + port
  }

  /** `net.SplitHostPort`: the port follows the last colon; brackets must wrap the whole host. */
  function SplitHostPort(s: string): Option<HostAndPort> {
    var i := LastIndexByte(s, ':');
    if i < 0 then None
    else if s[0] == '[' then
      var end := IndexByte(s, ']');
      if end < 0 || end + 1 != i then None
      else if '[' in s[1..] || ']' in s[end + 1..] then None
      else Some(HostAndPort(s[1..end], s[i + 1..]))
    else if ':' in s[..i] || '[' in s || ']' in s then None
    else Some(HostAndPort(s[..i], s[i + 1..]))
  }

  predicate PlainHost(host: string) {
    '[' !in host && ']' !in host
  }

  predicate PlainPort(port: string) {
    ':' !in port && '[' !in port && ']' !in port
  }

  lemma LastIndexIs(s: string, c: char, i: nat)
    requires i < |s| && s[i] == c && c !in s[i + 1..]
    ensures LastIndexByte(s, c) == i
  {
    var j := LastIndexByte(s, c);
    assert forall k :: i < k < |s| ==> s[k] == s[i + 1..][k - i - 1];
    assert forall k :: 0 <= j < k < |s| ==> s[k] == s[j + 1..][k - j - 1];
  }

  lemma IndexByteIs(s: string, c: char, i: nat)
    requires i < |s| && s[i] == c && c !in s[..i]
    ensures IndexByte(s, c) == i
  {
    var j := IndexByte(s, c);
    assert forall k :: 0 <= k < i ==> s[k] == s[..i][k];
    assert forall k :: 0 <= k < j ==> s[k] == s[..j][k];
  }

  lemma SplitOfBracketed(host: string, port: string)
    requires PlainHost(host) && PlainPort(port)
    ensures SplitHostPort("[" + host + "]:" + port) == Some(HostAndPort(host, port))
  {
    var s, end := "[" + host + "]:" + port, |host| + 1;
    assert s[end] == ']' && s[end + 1] == ':';
    assert s[end + 2..] == port && s[1..end] == host;
    LastIndexIs(s, ':', end + 1);
    assert s[..end] == "[" + host;
    IndexByteIs(s, ']', end);
    assert s[1..] == host + "]:" + port && s[end + 1..] == ":" + port;
  }

  lemma SplitOfPlain(host: string, port: string)
    requires PlainHost(host) && PlainPort(port) && ':' !in host
    ensures SplitHostPort(host + ":" + port) == Some(HostAndPort(host, port))
  {
    var s := host + ":" + port;
    assert s[|host|] == ':' && s[|host| + 1..] == port && s[..|host|] == host;
    LastIndexIs(s, ':', |host|);
  }

  /** Reading a printed endpoint gives its host and port back, bracketed or not. */
  lemma SplitOfJoinHostPort(host: string, port: string)
    requires PlainHost(host) && PlainPort(port)
    ensures SplitHostPort(JoinHostPort(host, port)) == Some(HostAndPort(host, port))
  {
    if ':' in host { SplitOfBracketed(host, port); } else { SplitOfPlain(host, port); }
  }

  /** A text that can be split: a bracketed host, or one without a colon, and a port, with no other
      bracket anywhere. */
  predicate Joined(s: string, host: string, port: string) {
    && PlainHost(host) && PlainPort(port)
    && (s == "[" + host + "]:" + port || (':' !in host && s == host + ":" + port))
  }

  lemma SplitBracketedMeans(s: string)
    requires SplitHostPort(s).Some? && s != "" && s[0] == '['
    ensures var hp := SplitHostPort(s).value; PlainHost(hp.host) && PlainPort(hp.port) && s == "[" + hp.host + "]:" + hp.port
  {
    var i, end := LastIndexByte(s, ':'), IndexByte(s, ']');
    assert s == [s[0]] + s[1..end] + [s[end]] + [s[i]] + s[i + 1..];
    forall k | 1 <= k < end ensures s[k] != ']' { assert s[k] == s[..end][k]; }
    forall k | i < k < |s| ensures s[k] != ']' { assert s[k] == s[end + 1..][k - end - 1]; }
    forall k | 1 <= k < |s| ensures s[k] != '[' { assert s[k] == s[1..][k - 1]; }
  }

  lemma SplitPlainMeans(s: string)
    requires SplitHostPort(s).Some? && (s == "" || s[0] != '[')
    ensures var hp := SplitHostPort(s).value; PlainHost(hp.host) && PlainPort(hp.port) && ':' !in hp.host && s == hp.host + ":" + hp.port
  {
    var i := LastIndexByte(s, ':');
    assert s == s[..i] + [s[i]] + s[i + 1..];
  }

  /** A text splits if and only if it is such a text, and then into its host and port. */
  lemma SplitExact(s: string, host: string, port: string)
    ensures SplitHostPort(s) == Some(HostAndPort(host, port)) <==> Joined(s, host, port)
  {
    if SplitHostPort(s) == Some(HostAndPort(host, port)) {
      if s != "" && s[0] == '[' { SplitBracketedMeans(s); } else { SplitPlainMeans(s); }
      assert host != "" && s == host + ":" + port ==> s[0] == host[0];
    } else if s == "[" + host + "]:" + port && PlainHost(host) && PlainPort(port) {
      SplitOfBracketed(host, port);
    } else if Joined(s, host, port) {
      SplitOfPlain(host, port);
    }
  }
}
