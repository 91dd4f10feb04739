/**
 Client identifiers: their textual forms (dhcp/server.py, dhcp/packet.py), the trimming every
 store applies (dhcp/lease_manager.py, dhcp/storage.py) and the normal form of reservations
 (dhcp/reservation.py).  Letter case and white space are those of ASCII.
 */
module ClientIds {
  import opened Bytes

  /** One of the sixteen lower-case hexadecimal digits. */
  predicate IsDigit(c: char) {
    '0' <= c <= '9' || 'a' <= c <= 'f'
  }

  function Digit(n: nat): (c: char)
    requires n < 16
    ensures IsDigit(c)
  {
    if n < 10 then ('0' as int + n) as char else ('a' as int + n - 10) as char
  }

  lemma DigitTable(n: nat)
    requires n < 16
    ensures Digit(n) == "0123456789abcdef"[n]
  {
  }

  lemma DigitsAre(c: char)
    ensures IsDigit(c) <==> c in "0123456789abcdef"
  {
  }

  // ----- trimming -----

  predicate IsSpace(c: char) {
    c == ' ' || 9 as char <= c <= 13 as char || 28 as char <= c <= 31 as char
  }

  function Strip(s: string): (r: string)
    ensures r == "" || (!IsSpace(r[0]) && !IsSpace(r[|r| - 1]))
    ensures s != "" && !IsSpace(s[0]) && !IsSpace(s[|s| - 1]) ==> r == s
  {
    if s == "" then ""
    else if IsSpace(s[0]) then Strip(s[1..])
    else if IsSpace(s[|s| - 1]) then Strip(s[..|s| - 1])
    else s
  }

  lemma SpaceTable(c: char)
    ensures IsSpace(c) <==> c as int in [9, 10, 11, 12, 13, 28, 29, 30, 31, 32]
  {
  }

  /** Trimming takes white space off both ends and nothing else. */
  lemma {:induction false} StripParts(s: string) returns (lo: nat, hi: nat)
    ensures lo <= hi <= |s| && Strip(s) == s[lo..hi]
    ensures forall i :: 0 <= i < |s| && !(lo <= i < hi) ==> IsSpace(s[i])
  {
    if s == "" {
      lo, hi := 0, 0;
    } else if IsSpace(s[0]) {
      lo, hi := StripParts(s[1..]);
      PartOfTail(s, lo, hi);
      assert forall i :: 1 <= i < |s| ==> s[i] == s[1..][i - 1];
      lo, hi := lo + 1, hi + 1;
    } else if IsSpace(s[|s| - 1]) {
      lo, hi := StripParts(s[..|s| - 1]);
      PartOfFront(s, lo, hi);
      assert forall i :: 0 <= i < |s| - 1 ==> s[i] == s[..|s| - 1][i];
    } else {
      lo, hi := 0, |s|;
    }
  }

  lemma PartOfTail(s: string, lo: nat, hi: nat)
    requires s != "" && lo <= hi <= |s| - 1
    ensures s[1..][lo..hi] == s[lo + 1..hi + 1]
  {
  }

  lemma PartOfFront(s: string, lo: nat, hi: nat)
    requires s != "" && lo <= hi <= |s| - 1
    ensures s[..|s| - 1][lo..hi] == s[lo..hi]
  {
  }

  /** Trimming twice is trimming once. */
  lemma StripTwice(s: string)
    ensures Strip(Strip(s)) == Strip(s)
  {
  }

  // ----- hexadecimal forms -----

  function Hex(bs: seq<byte>): (r: string)
    ensures |r| == 2 * |bs|
    ensures forall i :: 0 <= i < |r| ==> IsDigit(r[i])
  {
    if bs == [] then "" else [Digit(bs[0] / 16), Digit(bs[0] % 16)] + Hex(bs[1..])
  }

  /** Two digits an octet, separated by colons. */
  function Mac(bs: seq<byte>): (r: string)
    ensures |r| == if bs == [] then 0 else 3 * |bs| - 1
    ensures r == "" || (IsDigit(r[0]) && IsDigit(r[|r| - 1]))
    ensures |bs| > 1 ==> r[2] == ':'
  {
    if |bs| <= 1 then Hex(bs) else Hex(bs[..1]) + ":" + Mac(bs[1..])
  }

  /** Neither form is changed by trimming. */
  lemma FormsAreTrimmed(bs: seq<byte>)
    ensures Strip(Hex(bs)) == Hex(bs) && Strip(Mac(bs)) == Mac(bs)
  {
  }

  lemma DigitsDiffer(i: nat, j: nat)
    requires i < 16 && j < 16 && Digit(i) == Digit(j)
    ensures i == j
  {
  }

  /** No two client identifier options share a textual form. */
  lemma {:induction false} HexIsInjective(a: seq<byte>, b: seq<byte>)
    requires Hex(a) == Hex(b)
    ensures a == b
    decreases |a|
  {
    if a != [] && b != [] {
      assert Digit(a[0] / 16) == Hex(a)[0] == Hex(b)[0] == Digit(b[0] / 16);
      assert Digit(a[0] % 16) == Hex(a)[1] == Hex(b)[1] == Digit(b[0] % 16);
      DigitsDiffer(a[0] / 16, b[0] / 16);
      DigitsDiffer(a[0] % 16, b[0] % 16);
      assert a[0] == b[0];
      assert Hex(a[1..]) == Hex(a)[2..] == Hex(b)[2..] == Hex(b[1..]);
      HexIsInjective(a[1..], b[1..]);
      assert a == [a[0]] + a[1..] && b == [b[0]] + b[1..];
    }
  }

  /** The digits of each octet in turn. */
  lemma {:induction false} HexDigits(bs: seq<byte>, i: nat)
    requires i < |bs|
    ensures Hex(bs)[2 * i] == Digit(bs[i] / 16) && Hex(bs)[2 * i + 1] == Digit(bs[i] % 16)
    decreases i
  {
    if i > 0 {
      HexDigits(bs[1..], i - 1);
      assert Hex(bs)[2 * i] == Hex(bs[1..])[2 * (i - 1)];
      assert Hex(bs)[2 * i + 1] == Hex(bs[1..])[2 * (i - 1) + 1];
    }
  }

  /** Octet `i` is written in two digits at position `3 * i`, with a colon after all but the last. */
  predicate SpelledAt(m: string, bs: seq<byte>, i: nat)
    requires i < |bs|
  {
    && 3 * i + 1 < |m| && m[3 * i] == Digit(bs[i] / 16) && m[3 * i + 1] == Digit(bs[i] % 16)
    && (i + 1 < |bs| ==> 3 * i + 2 < |m| && m[3 * i + 2] == ':')
  }

  lemma ShiftSpelled(first: string, rest: string, bs: seq<byte>, i: nat)
    requires |first| == 3 && 0 < i < |bs| && SpelledAt(rest, bs[1..], i - 1)
    ensures SpelledAt(first + rest, bs, i)
  {
    hide Digit;
    assert bs[1..][i - 1] == bs[i];
    assert 3 * i == 3 * (i - 1) + 3;
  }

  /** A hardware address is spelled octet by octet. */
  lemma {:induction false} MacDigits(bs: seq<byte>, i: nat)
    requires i < |bs|
    ensures SpelledAt(Mac(bs), bs, i)
    decreases i
  {
    if |bs| == 1 {
      HexDigits(bs, i);
    } else if i == 0 {
      HexDigits(bs[..1], 0);
    } else {
      MacDigits(bs[1..], i - 1);
      ShiftSpelled(Hex(bs[..1]) + ":", Mac(bs[1..]), bs, i);
      hide SpelledAt;
    }
  }

  lemma OctetByDigits(x: byte, y: byte)
    requires Digit(x / 16) == Digit(y / 16) && Digit(x % 16) == Digit(y % 16)
    ensures x == y
  {
    DigitsDiffer(x / 16, y / 16);
    DigitsDiffer(x % 16, y % 16);
  }

  /** Different hardware addresses have different textual forms. */
  lemma MacIsInjective(a: seq<byte>, b: seq<byte>)
    ensures Mac(a) == Mac(b) <==> a == b
  {
    if Mac(a) == Mac(b) {
      assert |a| == |b|;
      forall i | 0 <= i < |a|
        ensures a[i] == b[i]
      {
        MacDigits(a, i);
        MacDigits(b, i);
        OctetByDigits(a[i], b[i]);
      }
    }
  }

  /**
   A hardware address and a client identifier option are taken for the same client exactly
   when they are the same single octet (or both are empty): longer addresses contain a colon.
   */
  lemma MacMeetsHex(mac: seq<byte>, option: seq<byte>)
    ensures Mac(mac) == Hex(option) <==> |mac| <= 1 && mac == option
  {
    if |mac| > 1 {
      assert Mac(mac)[2] == ':';
    } else if Hex(mac) == Hex(option) {
      HexIsInjective(mac, option);
    }
  }

  // ----- the normal form of reservations -----

  function LowerChar(c: char): char {
    if 'A' <= c <= 'Z' then (c as int + 32) as char else c
  }

  function Lower(s: string): (r: string)
    ensures |r| == |s| && forall i :: 0 <= i < |s| ==> r[i] == LowerChar(s[i])
  {
    seq(|s|, i requires 0 <= i < |s| => LowerChar(s[i]))
  }

  lemma LowerTable(k: nat)
    requires k < 26
    ensures LowerChar("ABCDEFGHIJKLMNOPQRSTUVWXYZ"[k]) == "abcdefghijklmnopqrstuvwxyz"[k]
  {
  }

  lemma LowerOther(c: char)
    requires !('A' <= c <= 'Z')
    ensures LowerChar(c) == c
  {
  }

  predicate IsSeparator(c: char) {
    c == ':' || c == '-' || c == '.'
  }

  function Unit(c: char): string {
    if IsSeparator(c) then "" else [c]
  }

  function Compact(s: string): string {
    if s == "" then "" else Unit(s[0]) + Compact(s[1..])
  }

  lemma SeparatorTable(c: char)
    ensures IsSeparator(c) <==> c in ":-."
  {
  }

  predicate IsMac(compact: string) {
    |compact| == 12 && forall i :: 0 <= i < 12 ==> IsDigit(compact[i])
  }

  lemma MacTable(s: string)
    ensures IsMac(s) <==> |s| == 12 && forall i :: 0 <= i < 12 ==> s[i] in "0123456789abcdef"
  {
    forall i | 0 <= i < |s| ensures IsDigit(s[i]) <==> s[i] in "0123456789abcdef" {
      DigitsAre(s[i]);
    }
    hide IsDigit;
  }

  /** Pairs of characters separated by colons. */
  function Grouped(s: string): (r: string)
    ensures s != "" ==> |r| > 0 && r[0] == s[0] && r[|r| - 1] == s[|s| - 1]
    decreases |s|
  {
    if |s| <= 2 then s else s[..2] + ":" + Grouped(s[2..])
  }

  function NormalizeClientId(id: string): string {
    var value := Lower(Strip(id));
    if IsMac(Compact(value)) then Grouped(Compact(value)) else value
  }

  lemma LowerKeepsStrip(s: string)
    ensures Strip(Lower(Strip(s))) == Lower(Strip(s))
    ensures Lower(Lower(Strip(s))) == Lower(Strip(s))
  {
    var t := Strip(s);
    assert forall c :: IsSpace(LowerChar(c)) <==> IsSpace(c);
    assert forall c :: LowerChar(LowerChar(c)) == LowerChar(c);
  }

  lemma {:induction false} CompactStep(s: string)
    requires s != ""
    ensures Compact(s) == Unit(s[0]) + Compact(s[1..])
  {
  }

  lemma {:induction false} CompactHasNoSeparator(s: string)
    ensures forall i :: 0 <= i < |Compact(s)| ==> !IsSeparator(Compact(s)[i])
  {
    if s == "" {
    } else {
      CompactHasNoSeparator(s[1..]);
    }
  }

  lemma JoinedTwice(a: string, b: string, c: string)
    ensures a + (b + c) == a + b + c
  {
  }

  lemma TailOfJoined(s: string, t: string)
    requires s != ""
    ensures (s + t)[0] == s[0] && (s + t)[1..] == s[1..] + t
  {
  }

  lemma {:induction false} CompactAdd(s: string, t: string)
    ensures Compact(s + t) == Compact(s) + Compact(t)
  {
    if s == "" {
      assert s + t == t;
    } else {
      CompactAdd(s[1..], t);
      CompactStep(s);
      CompactStep(s + t);
      TailOfJoined(s, t);
      JoinedTwice(Unit(s[0]), Compact(s[1..]), Compact(t));
      hide Compact, Unit, IsSeparator;
    }
  }

  lemma {:induction false} CompactOfPlain(s: string)
    requires forall i :: 0 <= i < |s| ==> !IsSeparator(s[i])
    ensures Compact(s) == s
  {
    if s == "" {
    } else {
      CompactOfPlain(s[1..]);
    }
  }

  lemma {:induction false} CompactUndoesGrouped(s: string)
    requires forall i :: 0 <= i < |s| ==> IsDigit(s[i])
    ensures Compact(Grouped(s)) == s
    decreases |s|
  {
    if |s| <= 2 {
      CompactOfPlain(s);
    } else {
      CompactUndoesGrouped(s[2..]);
      CompactOfPlain(s[..2]);
      CompactAdd(s[..2] + ":", Grouped(s[2..]));
      CompactAdd(s[..2], ":");
      assert Compact(":") == "" by { assert ":"[1..] == ""; }
    }
  }

  lemma {:induction false} GroupedIsLower(s: string)
    requires forall i :: 0 <= i < |s| ==> IsDigit(s[i])
    ensures forall i :: 0 <= i < |Grouped(s)| ==> LowerChar(Grouped(s)[i]) == Grouped(s)[i]
    decreases |s|
  {
    if |s| > 2 {
      GroupedIsLower(s[2..]);
    }
  }

  lemma NormalizeGrouped(digits: string)
    requires IsMac(digits)
    ensures NormalizeClientId(Grouped(digits)) == Grouped(digits)
  {
    CompactUndoesGrouped(digits);
    GroupedIsLower(digits);
    assert Strip(Grouped(digits)) == Grouped(digits);
    assert Lower(Grouped(digits)) == Grouped(digits);
  }

  /** Normalizing twice is normalizing once, so a reservation is found under the form it was filed. */
  lemma NormalizeTwice(id: string)
    ensures NormalizeClientId(NormalizeClientId(id)) == NormalizeClientId(id)
  {
    hide Grouped, Compact;
    var value := Lower(Strip(id));
    if IsMac(Compact(value)) {
      NormalizeGrouped(Compact(value));
    } else {
      LowerKeepsStrip(id);
    }
  }

  /** Every notation of one hardware address has the same normal form: lower-case pairs with colons. */
  lemma NotationsAgree(id: string, digits: string)
    requires |digits| == 12 && (forall i :: 0 <= i < 12 ==> digits[i] in "0123456789abcdef")
    requires Compact(Lower(Strip(id))) == digits
    ensures NormalizeClientId(id) == Grouped(digits) == NormalizeClientId(digits)
  {
    MacTable(digits);
    hide Grouped;
    assert Strip(digits) == digits;
    assert Lower(digits) == digits;
    CompactOfPlain(digits);
  }

  /** Pairs of characters stay together and in order, with a colon after each pair but the last. */
  lemma {:induction false} GroupedPairs(s: string, k: nat)
    requires |s| % 2 == 0 && 2 * k < |s|
    ensures 3 * k + 1 < |Grouped(s)| && Grouped(s)[3 * k] == s[2 * k] && Grouped(s)[3 * k + 1] == s[2 * k + 1]
    ensures 2 * k + 2 < |s| ==> 3 * k + 2 < |Grouped(s)| && Grouped(s)[3 * k + 2] == ':'
    ensures |Grouped(s)| == 3 * (|s| / 2) - 1
    decreases |s|
  {
    if |s| <= 2 {
    } else {
      var first, rest := s[..2] + ":", Grouped(s[2..]);
      assert Grouped(s) == first + rest;
      GroupedPairs(s[2..], if k == 0 then 0 else k - 1);
      if k > 0 {
        assert (first + rest)[3 * k] == rest[3 * (k - 1)] && (first + rest)[3 * k + 1] == rest[3 * (k - 1) + 1];
        assert 2 * k + 2 < |s| ==> (first + rest)[3 * k + 2] == rest[3 * (k - 1) + 2];
      }
    }
  }

  /** An identifier that is no hardware address only loses its outer white space and its upper case. */
  lemma NormalOfOther(id: string)
    requires var x := Compact(Lower(Strip(id)));
             |x| != 12 || exists i :: 0 <= i < 12 && x[i] !in "0123456789abcdef"
    ensures NormalizeClientId(id) == Lower(Strip(id))
  {
    MacTable(Compact(Lower(Strip(id))));
    hide IsMac, Compact, Strip, Grouped;
  }

  /**
   Two identifiers have the same normal form exactly when they differ in nothing but outer white
   space and letter case, or spell the same twelve digits of a hardware address.
   */
  lemma SameNormalForm(a: string, b: string)
    ensures var x, y := Lower(Strip(a)), Lower(Strip(b));
            NormalizeClientId(a) == NormalizeClientId(b)
            <==> x == y || (IsMac(Compact(x)) && Compact(x) == Compact(y))
  {
    hide Grouped, Strip;
    var x, y := Lower(Strip(a)), Lower(Strip(b));
    if IsMac(Compact(x)) { CompactUndoesGrouped(Compact(x)); }
    if IsMac(Compact(y)) { CompactUndoesGrouped(Compact(y)); }
    hide Compact;
  }
}
