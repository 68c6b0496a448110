/** The white space that is trimmed off attributes: exactly the white-space characters of Unicode, in UTF-8. */
module LdapSpace {
  import opened Bytes
  import opened LdapFilter

  type Rune = c: nat | c < 0x10000

  /** The code points that Unicode calls white space. */
  predicate IsWhite(c: Rune) {
    || 0x9 <= c <= 0xD || c == 0x20 || c == 0x85 || c == 0xA0 || c == 0x1680 || 0x2000 <= c <= 0x200A
    || c == 0x2028 || c == 0x2029 || c == 0x202F || c == 0x205F || c == 0x3000
  }

  /** A code point in UTF-8 (section 3 of RFC 3629). */
  function Utf8(c: Rune): bytes {
    if c < 0x80 then [c]
    else if c < 0x800 then [0xC0 + c / 0x40, 0x80 + c % 0x40]
    else [0xE0 + c / 0x1000, 0x80 + c / 0x40 % 0x40, 0x80 + c % 0x40]
  }

  lemma WideIsWhite(a: byte, b: byte, c: byte) returns (r: Rune)
    requires WideSpace(a, b, c)
    ensures IsWhite(r) && Utf8(r) == [a, b, c]
  {
    if a == 0xE1 { r := 0x1680; }
    else if a == 0xE3 { r := 0x3000; }
    else if b == 0x81 { r := 0x205F; }
    else { r := 0x2000 + (c as int - 0x80); }
  }

  lemma LeadIsWhite(s: bytes) returns (r: Rune)
    requires LeadingSpace(s) > 0
    ensures IsWhite(r) && Utf8(r) == s[..LeadingSpace(s)]
  {
    if LeadingSpace(s) == 1 {
      r := s[0];
    } else if LeadingSpace(s) == 2 {
      r := s[1];
    } else {
      r := WideIsWhite(s[0], s[1], s[2]);
      hide Utf8, IsWhite, WideSpace;
    }
  }

  lemma TrailIsWhite(s: bytes) returns (r: Rune)
    requires TrailingSpace(s) > 0
    ensures IsWhite(r) && Utf8(r) == s[|s| - TrailingSpace(s)..]
  {
    var k := |s|;
    if TrailingSpace(s) == 1 {
      r := s[k - 1];
    } else if TrailingSpace(s) == 2 {
      r := s[k - 1];
    } else {
      r := WideIsWhite(s[k - 3], s[k - 2], s[k - 1]);
      hide Utf8, IsWhite, WideSpace;
    }
  }

  lemma WhiteBytes(r: Rune)
    requires IsWhite(r)
    ensures var p := Utf8(r);
            || (|p| == 1 && (9 <= p[0] <= 13 || p[0] == 32))
            || (|p| == 2 && p[0] == 0xC2 && (p[1] == 0x85 || p[1] == 0xA0))
            || (|p| == 3 && WideSpace(p[0], p[1], p[2]))
  {
  }

  predicate EndsWith(s: bytes, t: bytes) { |t| <= |s| && s[|s| - |t|..] == t }

  lemma WhiteLeads(s: bytes, r: Rune)
    requires IsWhite(r) && Utf8(r) <= s
    ensures LeadingSpace(s) > 0
  {
    var p := Utf8(r);
    WhiteBytes(r);
    hide Utf8, IsWhite, WideSpace;
    assert s[0] == p[0] && (|p| > 1 ==> s[1] == p[1]) && (|p| > 2 ==> s[2] == p[2]);
  }

  lemma WhiteTrails(s: bytes, r: Rune)
    requires IsWhite(r) && EndsWith(s, Utf8(r))
    ensures TrailingSpace(s) > 0
  {
    var p, k := Utf8(r), |s|;
    WhiteBytes(r);
    hide Utf8, IsWhite, WideSpace;
    assert forall i :: 0 <= i < |p| ==> p[i] == s[k - |p| + i];
  }

  /** What is cut off in one go, at either end, is one white-space character, and one is cut off whenever there is one. */
  lemma SpacesAreCharacters(s: bytes)
    ensures LeadingSpace(s) > 0 <==> exists r: Rune :: IsWhite(r) && Utf8(r) <= s
    ensures LeadingSpace(s) > 0 ==> exists r: Rune :: IsWhite(r) && Utf8(r) == s[..LeadingSpace(s)]
    ensures TrailingSpace(s) > 0 <==> exists r: Rune :: IsWhite(r) && EndsWith(s, Utf8(r))
    ensures TrailingSpace(s) > 0 ==> exists r: Rune :: IsWhite(r) && Utf8(r) == s[|s| - TrailingSpace(s)..]
  {
    hide LeadingSpace, TrailingSpace, IsWhite, Utf8;
    if LeadingSpace(s) > 0 {
      var r := LeadIsWhite(s);
      assert Utf8(r) <= s;
    }
    if TrailingSpace(s) > 0 {
      var r := TrailIsWhite(s);
      assert EndsWith(s, Utf8(r));
    }
    forall r: Rune | IsWhite(r) && Utf8(r) <= s ensures LeadingSpace(s) > 0 { WhiteLeads(s, r); }
    forall r: Rune | IsWhite(r) && EndsWith(s, Utf8(r)) ensures TrailingSpace(s) > 0 { WhiteTrails(s, r); }
  }

  // ---------------------------------------------------------------------------------------------
  // Trimming

  /** White-space characters one after the other. */
  ghost predicate AllWhite(s: bytes) {
    exists list: seq<Rune> :: (forall i :: 0 <= i < |list| ==> IsWhite(list[i])) && Spelled(list) == s
  }

  function Spelled(list: seq<Rune>): bytes { if list == [] then [] else Utf8(list[0]) + Spelled(list[1..]) }

  lemma NothingIsWhite()
    ensures AllWhite([])
  {
    assert Spelled([]) == [];
  }

  lemma WhiteBefore(r: Rune, s: bytes)
    requires IsWhite(r) && AllWhite(s)
    ensures AllWhite(Utf8(r) + s)
  {
    hide IsWhite, Utf8;
    var list: seq<Rune> :| (forall i :: 0 <= i < |list| ==> IsWhite(list[i])) && Spelled(list) == s;
    assert ([r] + list)[1..] == list;
    assert Spelled([r] + list) == Utf8(r) + s;
  }

  lemma WhiteBehind(s: bytes, r: Rune)
    requires IsWhite(r) && AllWhite(s)
    ensures AllWhite(s + Utf8(r))
  {
    hide IsWhite, Utf8;
    var list: seq<Rune> :| (forall i :: 0 <= i < |list| ==> IsWhite(list[i])) && Spelled(list) == s;
    SpelledEnds(list, r);
    assert Spelled(list + [r]) == s + Utf8(r);
  }

  lemma {:induction false} SpelledEnds(list: seq<Rune>, r: Rune)
    ensures Spelled(list + [r]) == Spelled(list) + Utf8(r)
  {
    hide Utf8;
    if list == [] {
      assert list + [r] == [r] && [r][1..] == [] && Spelled([]) == [] && Utf8(r) + [] == [] + Utf8(r);
    } else {
      SpelledEnds(list[1..], r);
      assert (list + [r])[1..] == list[1..] + [r];
    }
  }

  ghost predicate Trimmed(s: bytes, front: bytes, back: bytes) {
    && s == front + TrimSpace(s) + back && AllWhite(front) && AllWhite(back)
    && forall r: Rune :: IsWhite(r) ==> !(Utf8(r) <= TrimSpace(s)) && !EndsWith(TrimSpace(s), Utf8(r))
  }

  lemma TrimmedInFront(s: bytes, r: Rune, front: bytes, back: bytes)
    requires LeadingSpace(s) > 0 && IsWhite(r) && Utf8(r) == s[..LeadingSpace(s)]
    requires Trimmed(s[LeadingSpace(s)..], front, back)
    ensures Trimmed(s, Utf8(r) + front, back)
  {
    hide LeadingSpace, TrailingSpace, IsWhite, Utf8, AllWhite, EndsWith;
    WhiteBefore(r, front);
    var n := LeadingSpace(s);
    assert TrimSpace(s) == TrimSpace(s[n..]);
    hide TrimSpace;
    assert s == s[..n] + s[n..];
  }

  lemma TrimmedBehind(s: bytes, r: Rune, front: bytes, back: bytes)
    requires LeadingSpace(s) == 0 && TrailingSpace(s) > 0 && IsWhite(r) && Utf8(r) == s[|s| - TrailingSpace(s)..]
    requires Trimmed(s[..|s| - TrailingSpace(s)], front, back)
    ensures Trimmed(s, front, back + Utf8(r))
  {
    hide LeadingSpace, TrailingSpace, IsWhite, Utf8, AllWhite, EndsWith;
    WhiteBehind(back, r);
    var cut := |s| - TrailingSpace(s);
    assert TrimSpace(s) == TrimSpace(s[..cut]);
    hide TrimSpace;
    assert s == s[..cut] + s[cut..];
  }

  lemma NothingToTrim(s: bytes)
    requires LeadingSpace(s) == 0 && TrailingSpace(s) == 0
    ensures Trimmed(s, [], [])
  {
    hide LeadingSpace, TrailingSpace, IsWhite, Utf8, AllWhite, EndsWith;
    NothingIsWhite();
    SpacesAreCharacters(s);
    assert TrimSpace(s) == s && [] + s + [] == s;
  }

  lemma {:induction false} Trims(s: bytes) returns (front: bytes, back: bytes)
    ensures Trimmed(s, front, back)
    decreases |s|
  {
    hide LeadingSpace, TrailingSpace, IsWhite, Utf8, Trimmed, TrimSpace;
    if LeadingSpace(s) > 0 {
      var r := LeadIsWhite(s);
      front, back := Trims(s[LeadingSpace(s)..]);
      TrimmedInFront(s, r, front, back);
      front := Utf8(r) + front;
    } else if TrailingSpace(s) > 0 {
      var r := TrailIsWhite(s);
      front, back := Trims(s[..|s| - TrailingSpace(s)]);
      TrimmedBehind(s, r, front, back);
      back := back + Utf8(r);
    } else {
      NothingToTrim(s);
      front, back := [], [];
    }
  }

  /** TrimSpace leaves a part of the text with no white space at either end, and cuts off nothing else. */
  lemma TrimIsExact(s: bytes) returns (front: bytes, back: bytes)
    ensures s == front + TrimSpace(s) + back && AllWhite(front) && AllWhite(back)
    ensures forall r: Rune :: IsWhite(r) ==> !(Utf8(r) <= TrimSpace(s)) && !EndsWith(TrimSpace(s), Utf8(r))
  {
    hide TrimSpace, IsWhite, Utf8, AllWhite, EndsWith;
    front, back := Trims(s);
  }
}
