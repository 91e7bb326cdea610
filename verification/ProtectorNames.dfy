/** infra/atrest/protector.go: how the name of a protector is read. */
module ProtectorNames {
  import opened Bytes

  /** strings.ToLower of UTF-8.  Besides the capital letters of ASCII two characters have a lower case in
      ASCII, the dotted capital I (U+0130) and the Kelvin sign (U+212A).  All others are kept: whatever
      becomes of them is not ASCII, as the names are that a result is compared with. */
  function ToLower(s: Text): Text {
    if s == [] then []
    else if |s| >= 2 && s[0] == 0xC4 && s[1] == 0xB0 then [0x69] + ToLower(s[2..])
    else if |s| >= 3 && s[0] == 0xE2 && s[1] == 0x84 && s[2] == 0xAA then [0x6B] + ToLower(s[3..])
    else if 0x41 <= s[0] <= 0x5A then [s[0] + 32] + ToLower(s[1..])
    else [s[0]] + ToLower(s[1..])
  }

  /** One character of white space, in UTF-8. */
  predicate IsSpace(c: Text) {
    || (|c| == 1 && (c[0] == 0x20 || 0x09 <= c[0] <= 0x0D))
    || (|c| == 2 && c[0] == 0xC2 && (c[1] == 0x85 || c[1] == 0xA0))
    || (|c| == 3 && c[0] == 0xE2 && c[1] == 0x80 && (0x80 <= c[2] <= 0x8A || c[2] in {0xA8, 0xA9, 0xAF}))
    || (|c| == 3 && c[0] == 0xE2 && c[1] == 0x81 && c[2] == 0x9F)
    || (|c| == 3 && c[0] == 0xE1 && c[1] == 0x9A && c[2] == 0x80)
    || (|c| == 3 && c[0] == 0xE3 && c[1] == 0x80 && c[2] == 0x80)
  }

  function TrimLeft(s: Text): Text {
    if |s| >= 1 && IsSpace(s[..1]) then TrimLeft(s[1..])
    else if |s| >= 2 && IsSpace(s[..2]) then TrimLeft(s[2..])
    else if |s| >= 3 && IsSpace(s[..3]) then TrimLeft(s[3..])
    else s
  }

  function TrimRight(s: Text): Text {
    if |s| >= 1 && IsSpace(s[|s| - 1..]) then TrimRight(s[..|s| - 1])
    else if |s| >= 2 && IsSpace(s[|s| - 2..]) then TrimRight(s[..|s| - 2])
    else if |s| >= 3 && IsSpace(s[|s| - 3..]) then TrimRight(s[..|s| - 3])
    else s
  }

  /** What a protector's name is read as, wherever it comes from. */
  function Normal(name: Text): Text { TrimRight(TrimLeft(ToLower(name))) }

  predicate IsPlain(s: Text) { forall k | 0 <= k < |s| :: 0x61 <= s[k] <= 0x7A || s[k] == 0x2D }

  lemma {:induction false} PlainIsLower(s: Text)
    requires IsPlain(s)
    ensures ToLower(s) == s
  {
    if s == [] {
    } else {
      PlainIsLower(s[1..]);
    }
  }

  /** The protectors' own names, in small letters, are read as they are. */
  lemma PlainIsNormal(s: Text)
    requires IsPlain(s)
    ensures Normal(s) == s
  {
    PlainIsLower(s);
    TrimsNothing(s);
  }

  lemma TrimsNothing(s: Text)
    requires IsPlain(s)
    ensures TrimLeft(s) == s && TrimRight(s) == s
  {
    forall n | 1 <= n <= 3 && n <= |s| ensures !IsSpace(s[..n]) && !IsSpace(s[|s| - n..]) {
      NotSpace(s[..n]);
      NotSpace(s[|s| - n..]);
    }
  }

  lemma NotSpace(c: Text)
    requires c != [] && IsPlain(c)
    ensures !IsSpace(c)
  {
    assert 0x61 <= c[0] <= 0x7A || c[0] == 0x2D;
  }

  /** A character that has a small letter in ASCII, or is one. */
  datatype Letter = Ascii(b: Byte) | DottedI | Kelvin

  predicate IsAscii(l: Letter) { l.Ascii? ==> l.b < 128 }

  /** Its UTF-8, and its small letter. */
  function Spelled(ls: seq<Letter>): Text {
    if ls == [] then []
    else
      (match ls[0]
       case Ascii(b) => [b]
       case DottedI => [0xC4, 0xB0]
       case Kelvin => [0xE2, 0x84, 0xAA])
      + Spelled(ls[1..])
  }

  function Small(ls: seq<Letter>): Text {
    if ls == [] then []
    else
      [match ls[0]
       case Ascii(b) => if 0x41 <= b <= 0x5A then b + 0x20 else b
       case DottedI => 0x69
       case Kelvin => 0x6B]
      + Small(ls[1..])
  }

  /** Names are lower-cased letter by letter, the two capitals outside ASCII included. */
  lemma {:induction false} LettersAreSmall(ls: seq<Letter>)
    requires forall l | l in ls :: IsAscii(l)
    ensures ToLower(Spelled(ls)) == Small(ls)
  {
    if ls == [] {
    } else {
      assert ls[0] in ls;
      var rest := Spelled(ls[1..]);
      LettersAreSmall(ls[1..]);
      match ls[0]
      case Ascii(b) => assert ([b] + rest)[1..] == rest;
      case DottedI =>
        var c: Text := [0xC4, 0xB0];
        assert (c + rest)[2..] == rest;
      case Kelvin =>
        var c: Text := [0xE2, 0x84, 0xAA];
        assert (c + rest)[3..] == rest;
    }
  }

  function Joined(cs: seq<Text>): Text { if cs == [] then [] else cs[0] + Joined(cs[1..]) }

  /** Any white space before and behind a plain name is trimmed, in characters of up to three bytes. */
  lemma SpacesTrimmed(before: seq<Text>, s: Text, after: seq<Text>)
    requires IsPlain(s) && s != [] && forall c | c in before + after :: IsSpace(c)
    ensures TrimRight(TrimLeft(Joined(before) + s + Joined(after))) == s
  {
    assert forall c | c in before :: c in before + after;
    assert forall c | c in after :: c in before + after;
    assert Joined(before) + s + Joined(after) == Joined(before) + (s + Joined(after));
    LeftTrimmed(before, s + Joined(after));
    forall n | 1 <= n <= 3 && n <= |s + Joined(after)| ensures !IsSpace((s + Joined(after))[..n]) {
      assert (s + Joined(after))[0] == s[0] && (0x61 <= s[0] <= 0x7A || s[0] == 0x2D);
    }
    RightTrimmed(s, after);
    TrimsNothing(s);
  }

  lemma {:induction false} LeftTrimmed(cs: seq<Text>, s: Text)
    requires forall c | c in cs :: IsSpace(c)
    ensures TrimLeft(Joined(cs) + s) == TrimLeft(s)
  {
    if cs == [] {
      assert Joined(cs) + s == s;
    } else {
      var c, rest := cs[0], Joined(cs[1..]) + s;
      assert c in cs;
      LeftTrimmed(cs[1..], s);
      assert Joined(cs) + s == c + rest;
      TrimOneLeft(c, rest);
    }
  }

  lemma TrimOneLeft(c: Text, rest: Text)
    requires IsSpace(c)
    ensures TrimLeft(c + rest) == TrimLeft(rest)
  {
    assert (c + rest)[..|c|] == c && (c + rest)[|c|..] == rest;
    assert forall n | 0 <= n <= |c| :: (c + rest)[..n] == c[..n];
  }

  lemma {:induction false} RightTrimmed(s: Text, cs: seq<Text>)
    requires forall c | c in cs :: IsSpace(c)
    ensures TrimRight(s + Joined(cs)) == TrimRight(s)
    decreases |cs|
  {
    if cs == [] {
      assert s + Joined(cs) == s;
    } else {
      var front, c := cs[..|cs| - 1], cs[|cs| - 1];
      assert c in cs;
      JoinedMore(front, c);
      assert cs == front + [c] && s + Joined(cs) == (s + Joined(front)) + c;
      TrimOneRight(s + Joined(front), c);
      RightTrimmed(s, front);
    }
  }

  lemma TrimOneRight(s: Text, c: Text)
    requires IsSpace(c)
    ensures TrimRight(s + c) == TrimRight(s)
  {
    var t := s + c;
    assert t[|t| - |c|..] == c && t[..|t| - |c|] == s;
    EndOfSpace(c);
    if |c| >= 2 { assert t[|t| - 1..] == c[|c| - 1..]; }
    if |c| >= 3 { assert t[|t| - 2..] == c[|c| - 2..]; }
    hide IsSpace;
  }

  /** No end of a longer space is a space itself. */
  lemma EndOfSpace(c: Text)
    requires IsSpace(c)
    ensures 1 <= |c| <= 3 && (|c| >= 2 ==> !IsSpace(c[|c| - 1..])) && (|c| >= 3 ==> !IsSpace(c[|c| - 2..]))
  {
  }

  lemma {:induction false} JoinedMore(cs: seq<Text>, c: Text)
    ensures Joined(cs + [c]) == Joined(cs) + c
  {
    if cs == [] {
      assert ([] + [c])[1..] == [];
    } else {
      assert (cs + [c])[1..] == cs[1..] + [c];
      JoinedMore(cs[1..], c);
    }
  }

  /** "FILE" and "Auto". */
  lemma Capitals()
    ensures Normal([0x46, 0x49, 0x4C, 0x45]) == [0x66, 0x69, 0x6C, 0x65]
    ensures Normal([0x41, 0x75, 0x74, 0x6F]) == [0x61, 0x75, 0x74, 0x6F]
    ensures Normal([]) == []
  {
    LowerOfFour(0x46, 0x49, 0x4C, 0x45);
    LowerOfFour(0x41, 0x75, 0x74, 0x6F);
    var file: Text, auto: Text := [0x66, 0x69, 0x6C, 0x65], [0x61, 0x75, 0x74, 0x6F];
    assert ToLower([0x46, 0x49, 0x4C, 0x45]) == file && ToLower([0x41, 0x75, 0x74, 0x6F]) == auto;
    TrimsNothing(file);
    TrimsNothing(auto);
  }

  lemma LowerOfFour(a: Byte, b: Byte, c: Byte, d: Byte)
    requires a < 128 && b < 128 && c < 128 && d < 128
    ensures ToLower([a, b, c, d]) == [Lower(a), Lower(b), Lower(c), Lower(d)]
  {
    LowerOfFirst(a, [b, c, d]);
    LowerOfFirst(b, [c, d]);
    LowerOfFirst(c, [d]);
    LowerOfFirst(d, []);
    assert [a] + [b, c, d] == [a, b, c, d] && [b] + [c, d] == [b, c, d] && [c] + [d] == [c, d] && [d] + [] == [d];
  }

  function Lower(b: Byte): Byte { if 0x41 <= b <= 0x5A then b + 32 else b }

  lemma LowerOfFirst(a: Byte, s: Text)
    requires a < 128
    ensures ToLower([a] + s) == [Lower(a)] + ToLower(s)
  {
    assert ([a] + s)[1..] == s;
  }

  lemma Surrounded(s: Text)
    requires IsPlain(s) && s != []
    ensures Normal([0x20] + s + [0x20]) == s
  {
    var t := [0x20] + s + [0x20];
    LowerOfMore(s, 0x20);
    PlainIsLower(s);
    var u := s + [0x20];
    LowerOfFirst(0x20, u);
    assert t == [0x20] + u && ToLower(t) == t && t[1..] == u;
    hide ToLower;
    assert t[..1] == [0x20] && TrimLeft(t) == TrimLeft(u);
    assert u[0] == s[0] && TrimLeft(u) == u;
    assert u[|u| - 1..] == [0x20] && u[..|u| - 1] == s && TrimRight(u) == TrimRight(s);
    TrimsNothing(s);
  }

  lemma {:induction false} LowerOfMore(s: Text, c: Byte)
    requires IsPlain(s) && c < 0x41
    ensures ToLower(s + [c]) == ToLower(s) + [c]
  {
    if s == [] {
      assert [] + [c] == [c];
    } else {
      assert (s + [c])[1..] == s[1..] + [c];
      LowerOfMore(s[1..], c);
    }
  }
}
