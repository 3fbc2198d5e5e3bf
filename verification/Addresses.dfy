/** What a "host:port" address of the leader cache is, apart from how it is built:
    the host, a colon, and the port in decimal. */
module Addresses {
  import opened Wire
  import opened LeaderGrammar

  /** The number some digits stand for, the most significant first. */
  function Value(s: Bytes): int {
    if s == [] then 0 else 10 * Value(s[..|s| - 1]) + (s[|s| - 1] as int - 48)
  }

  predicate Digits(s: Bytes) {
    forall i :: 0 <= i < |s| ==> 48 <= s[i] <= 57
  }

  /** `s` is `n` in decimal: digits, without a zero in front unless it is the only one. */
  predicate IsDecimal(s: Bytes, n: nat) {
    s != [] && Digits(s) && (|s| > 1 ==> s[0] != 48) && Value(s) == n
  }

  lemma ValueSnoc(s: Bytes, digit: byte)
    ensures Value(s + [digit]) == 10 * Value(s) + (digit as int - 48)
  {
    assert (s + [digit])[..|s|] == s;
  }

  lemma {:induction false} ValueIsNat(s: Bytes)
    requires Digits(s)
    ensures Value(s) >= 0
    ensures s != [] && s[0] != 48 ==> Value(s) > 0
  {
    if |s| == 1 {
      assert s[..0] == [];
    } else if s != [] {
      ValueIsNat(s[..|s| - 1]);
    }
  }

  lemma OneDigit(digit: byte)
    requires 48 <= digit <= 57
    ensures IsDecimal([digit], digit as int - 48)
  {
    ValueSnoc([], digit);
    assert [] + [digit] == [digit];
  }

  lemma MoreDigits(s: Bytes, n: nat, digit: byte)
    requires IsDecimal(s, n) && n > 0 && 48 <= digit <= 57
    ensures IsDecimal(s + [digit], 10 * n + (digit as int - 48))
  {
    ValueSnoc(s, digit);
    assert |s| == 1 ==> s[..|s| - 1] == [];
  }

  lemma {:induction false} DecimalReads(n: nat)
    ensures IsDecimal(Decimal(n), n)
  {
    if n < 10 {
      OneDigit((48 + n) as byte);
    } else {
      DecimalReads(n / 10);
      MoreDigits(Decimal(n / 10), n / 10, (48 + n % 10) as byte);
    }
  }

  lemma {:induction false} DecimalIsTheOnly(s: Bytes, n: nat)
    requires IsDecimal(s, n)
    ensures s == Decimal(n)
  {
    var past, last := s[..|s| - 1], s[|s| - 1];
    assert s == past + [last];
    if past != [] {
      ValueIsNat(past);
      DecimalIsTheOnly(past, Value(past));
      DivTen(n, Value(past), last as int - 48);
    }
  }

  lemma DivTen(n: nat, tens: nat, ones: nat)
    requires n == 10 * tens + ones && ones < 10
    ensures n / 10 == tens && n % 10 == ones
  {
  }

  /** `a` is "host:port". */
  ghost predicate IsAddress(a: Bytes, host: Bytes, port: nat) {
    exists digits :: IsDecimal(digits, port) && a == host + [58] + digits
  }

  /** An address is built exactly so. */
  lemma AddressReads(a: Bytes, host: Bytes, port: nat)
    ensures a == Address(host, port) <==> IsAddress(a, host, port)
  {
    DecimalReads(port);
    if IsAddress(a, host, port) {
      var digits :| IsDecimal(digits, port) && a == host + [58] + digits;
      DecimalIsTheOnly(digits, port);
    }
  }

  lemma ColonPlace(host: Bytes, digits: Bytes, i: nat)
    requires Digits(digits) && i < |host| + 1 + |digits|
    ensures i == |host| ==> (host + [58] + digits)[i] == 58
    ensures i > |host| ==> (host + [58] + digits)[i] != 58
  {
    if i > |host| {
      assert (host + [58] + digits)[i] == digits[i - |host| - 1];
    }
  }

  /** Equal addresses have equal hosts and ports: the last colon ends the host. */
  lemma AddressDecides(a: Bytes, host: Bytes, port: nat, host': Bytes, port': nat)
    requires IsAddress(a, host, port) && IsAddress(a, host', port')
    ensures host == host' && port == port'
  {
    var digits :| IsDecimal(digits, port) && a == host + [58] + digits;
    var digits' :| IsDecimal(digits', port') && a == host' + [58] + digits';
    ColonPlace(host, digits, |host|);
    ColonPlace(host', digits', |host'|);
    ColonPlace(host, digits, |host'|);
    ColonPlace(host', digits', |host|);
    assert host == a[..|host|] && host' == a[..|host'|];
    assert digits == a[|host| + 1..] && digits' == a[|host'| + 1..];
  }
}
