/** Peer addresses and the normalisation of IPv4-mapped literals, section 2.5.5.2 of RFC 4291 (common/net.c). */
module Addresses {
  import opened Decimals

  datatype Addr = Addr(ip: string, port: nat)

  const MAPPED_PREFIX: string := "::ffff:"

  /** A decimal number up to 255 in the form inet_pton accepts and inet_ntop prints. */
  predicate IsOctet(s: string) {
    && 1 <= |s| <= 3
    && (forall i :: 0 <= i < |s| ==> IsDigit(s[i]))
    && (|s| > 1 ==> s[0] != '0')
    && (|s| == 3 ==> s[0] < '2' || (s[0] == '2' && (s[1] < '5' || (s[1] == '5' && s[2] <= '5'))))
  }

  predicate IsDotted(s: string, parts: nat) {
    if parts <= 1 then IsOctet(s)
    else exists i :: 0 <= i < |s| && s[i] == '.' && IsOctet(s[..i]) && IsDotted(s[i + 1..], parts - 1)
  }

  predicate IsIpv4(s: string) {
    IsDotted(s, 4)
  }

  /** net_normalize_ip_literal: a mapped IPv4 literal becomes the plain one, any other text stays. */
  function Normalize(ip: string): (n: string)
    ensures |n| <= |ip|
  {
    if MAPPED_PREFIX <= ip && IsIpv4(ip[|MAPPED_PREFIX|..]) then ip[|MAPPED_PREFIX|..] else ip
  }

  lemma Ipv4StartsWithDigit(s: string)
    requires IsIpv4(s)
    ensures s != [] && IsDigit(s[0])
  {
    var i :| 0 <= i < |s| && s[i] == '.' && IsOctet(s[..i]) && IsDotted(s[i + 1..], 3);
    assert s[0] == s[..i][0];
  }

  /** Normalising twice is normalising once. */
  lemma NormalizeTwice(ip: string)
    ensures Normalize(Normalize(ip)) == Normalize(ip)
  {
    if MAPPED_PREFIX <= ip && IsIpv4(ip[|MAPPED_PREFIX|..]) {
      Ipv4StartsWithDigit(ip[|MAPPED_PREFIX|..]);
    }
  }

  function NormalizeAddr(a: Addr): Addr {
    Addr(Normalize(a.ip), a.port)
  }

  // --- What is normalised, number by number ---

  lemma {:induction false} SmallPrint(n: nat)
    requires n < 256
    ensures n < 10 ==> Print(n) == [DigitChar(n)]
    ensures 10 <= n < 100 ==> Print(n) == [DigitChar(n / 10), DigitChar(n % 10)]
    ensures 100 <= n ==> Print(n) == [DigitChar(n / 100), DigitChar(n / 10 % 10), DigitChar(n % 10)]
  {
    if n >= 10 {
      assert Print(n) == Print(n / 10) + [DigitChar(n % 10)];
      if n >= 100 {
        assert Print(n / 10) == Print(n / 100) + [DigitChar(n / 10 % 10)];
        assert Print(n / 100) == [DigitChar(n / 100)];
      } else {
        assert Print(n / 10) == [DigitChar(n / 10)];
      }
    }
  }

  lemma {:induction false} PrintIsOctet(n: nat)
    requires n < 256
    ensures IsOctet(Print(n))
  {
    SmallPrint(n);
  }

  lemma {:induction false} SmallDecimal(s: string)
    requires 1 <= |s| <= 3 && forall i :: 0 <= i < |s| ==> IsDigit(s[i])
    ensures |s| == 1 ==> Decimal(s) == DigitValue(s[0])
    ensures |s| == 2 ==> Decimal(s) == 10 * DigitValue(s[0]) + DigitValue(s[1])
    ensures |s| == 3 ==> Decimal(s) == 100 * DigitValue(s[0]) + 10 * DigitValue(s[1]) + DigitValue(s[2])
  {
    assert s[..1][..0] == "" && Decimal("") == 0;
    assert Decimal(s[..1]) == DigitValue(s[0]);
    if |s| >= 2 {
      assert s[..2][..1] == s[..1];
      assert Decimal(s[..2]) == 10 * Decimal(s[..1]) + DigitValue(s[1]);
    }
    assert s == s[..|s|];
  }

  /** The numbers of a dotted address are the printed numbers below 256. */
  lemma {:induction false} OctetIff(s: string)
    ensures IsOctet(s) <==> exists n: nat :: n < 256 && s == Print(n)
  {
    if IsOctet(s) {
      SmallDecimal(s);
      PrintOfDecimal(s);
      assert Decimal(s) < 256;
    }
    if n: nat :| n < 256 && s == Print(n) {
      PrintIsOctet(n);
    }
  }

  /** One number more in front. */
  lemma {:induction false} DottedIff(s: string, parts: nat)
    requires parts >= 2
    ensures IsDotted(s, parts) <==> exists n: nat, rest :: n < 256 && s == Print(n) + "." + rest && IsDotted(rest, parts - 1)
  {
    hide IsOctet, Print, IsDotted;
    if IsDotted(s, parts) {
      var n, rest := DottedHead(s, parts);
    }
    if n: nat, rest :| n < 256 && s == Print(n) + "." + rest && IsDotted(rest, parts - 1) {
      DottedJoin(n, rest, parts);
    }
  }

  lemma {:induction false} DottedHead(s: string, parts: nat) returns (n: nat, rest: string)
    requires parts >= 2 && IsDotted(s, parts)
    ensures n < 256 && s == Print(n) + "." + rest && IsDotted(rest, parts - 1)
  {
    hide IsOctet, Print;
    var i :| 0 <= i < |s| && s[i] == '.' && IsOctet(s[..i]) && IsDotted(s[i + 1..], parts - 1);
    hide IsDotted;
    OctetIff(s[..i]);
    n :| n < 256 && s[..i] == Print(n);
    rest := s[i + 1..];
    assert s == s[..i] + "." + rest;
  }

  lemma {:induction false} DottedJoin(n: nat, rest: string, parts: nat)
    requires parts >= 2 && n < 256 && IsDotted(rest, parts - 1)
    ensures IsDotted(Print(n) + "." + rest, parts)
  {
    hide IsOctet, Print;
    var i, s := |Print(n)|, Print(n) + "." + rest;
    PrintIsOctet(n);
    assert s[i] == '.' && s[..i] == Print(n) && s[i + 1..] == rest;
  }

  lemma {:induction false} OneNumber(n: nat)
    requires n < 256
    ensures IsDotted(Print(n), 1)
  {
    PrintIsOctet(n);
  }

  lemma {:induction false} OneNumberMore(n: nat, rest: string, parts: nat)
    requires n < 256 && parts >= 2 && IsDotted(rest, parts - 1)
    ensures IsDotted(Print(n) + "." + rest, parts)
  {
    hide Print, IsDotted;
    DottedIff(Print(n) + "." + rest, parts);
  }

  function Quad(a: nat, b: nat, c: nat, d: nat): string {
    Print(a) + "." + (Print(b) + "." + (Print(c) + "." + Print(d)))
  }

  lemma {:induction false} QuadIff(s: string)
    ensures IsIpv4(s) <==> exists a: nat, b: nat, c: nat, d: nat :: a < 256 && b < 256 && c < 256 && d < 256 && s == Quad(a, b, c, d)
  {
    hide Print, IsOctet, IsDotted;
    DottedIff(s, 4);
    if IsIpv4(s) {
      var a: nat, r :| a < 256 && s == Print(a) + "." + r && IsDotted(r, 3);
      DottedIff(r, 3);
      var b: nat, q :| b < 256 && r == Print(b) + "." + q && IsDotted(q, 2);
      DottedIff(q, 2);
      var c: nat, p :| c < 256 && q == Print(c) + "." + p && IsDotted(p, 1);
      LastNumber(p);
      var d: nat :| d < 256 && p == Print(d);
      assert s == Quad(a, b, c, d);
    }
    if a: nat, b: nat, c: nat, d: nat :| a < 256 && b < 256 && c < 256 && d < 256 && s == Quad(a, b, c, d) {
      OneNumber(d);
      OneNumberMore(c, Print(d), 2);
      OneNumberMore(b, Print(c) + "." + Print(d), 3);
      OneNumberMore(a, Print(b) + "." + (Print(c) + "." + Print(d)), 4);
    }
  }

  lemma {:induction false} LastNumber(s: string)
    ensures IsDotted(s, 1) <==> exists n: nat :: n < 256 && s == Print(n)
  {
    OctetIff(s);
  }

  /** A mapped literal loses its prefix, for every address. */
  lemma {:induction false} NormalizeMapped(a: nat, b: nat, c: nat, d: nat)
    requires a < 256 && b < 256 && c < 256 && d < 256
    ensures Normalize("::ffff:" + Print(a) + "." + Print(b) + "." + Print(c) + "." + Print(d))
         == Print(a) + "." + Print(b) + "." + Print(c) + "." + Print(d)
  {
    hide Print, IsIpv4;
    var plain := Print(a) + "." + Print(b) + "." + Print(c) + "." + Print(d);
    var mapped := "::ffff:" + Print(a) + "." + Print(b) + "." + Print(c) + "." + Print(d);
    assert plain == Quad(a, b, c, d);
    assert mapped == "::ffff:" + plain;
    assert mapped[7..] == plain;
    QuadIff(plain);
  }

  /** Any other text stays as it is. */
  lemma {:induction false} NormalizeOther(ip: string)
    requires forall a: nat, b: nat, c: nat, d: nat :: a < 256 && b < 256 && c < 256 && d < 256 ==>
      ip != "::ffff:" + Quad(a, b, c, d)
    ensures Normalize(ip) == ip
  {
    hide Print, IsIpv4, Quad;
    if "::ffff:" <= ip {
      QuadIff(ip[7..]);
      assert ip == "::ffff:" + ip[7..];
    }
  }
}
