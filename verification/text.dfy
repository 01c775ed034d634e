/** String facts the handlers rely on: Go's byte length of a string and
    strings.Split on the ", " separator used for the Actors field. */
module Text {

  /** Number of bytes the UTF-8 encoding of `c` takes. */
  function Utf8Width(c: char): nat {
    if c as int < 0x80 then 1
    else if c as int < 0x800 then 2
    else if c as int < 0x1_0000 then 3
    else 4
  }

  /** Go's len(s): the number of bytes of the UTF-8 encoding, not the
      number of characters. */
  function ByteLength(s: string): (n: nat)
    ensures |s| <= n <= 4 * |s|
    decreases |s|
  {
    if s == [] then 0 else Utf8Width(s[0]) + ByteLength(s[1..])
  }

  predicate IsAscii(s: string) {
    forall i :: 0 <= i < |s| ==> s[i] as int < 0x80
  }

  /** A string has exactly as many bytes as characters precisely when it
      is ASCII; otherwise it has more. */
  lemma {:induction false} ByteLengthVersusCharacters(s: string)
    ensures ByteLength(s) == |s| <==> IsAscii(s)
    decreases |s|
  {
    if s != [] {
      ByteLengthVersusCharacters(s[1..]);
      assert IsAscii(s) <==> s[0] as int < 0x80 && IsAscii(s[1..]) by {
        assert forall i :: 0 < i < |s| ==> s[i] == s[1..][i - 1];
      }
    }
  }

  /** The separator the Actors field is split on. */
  const Separator: string := ", "

  /** `s` holds the separator starting at index `i`. */
  ghost predicate SeparatorAt(s: string, i: int) {
    0 <= i && i + 1 < |s| && s[i] == ',' && s[i + 1] == ' '
  }

  ghost predicate HasSeparator(s: string) {
    exists i :: SeparatorAt(s, i)
  }

  /** strings.Split(s, ", "): cut `s` around each occurrence of the
      separator, scanning left to right. */
  function Split(s: string): (parts: seq<string>)
    ensures |parts| >= 1
    decreases |s|
  {
    if |s| < 2 then [s]
    else if s[..2] == Separator then [""] + Split(s[2..])
    else
      var rest := Split(s[1..]);
      [[s[0]] + rest[0]] + rest[1..]
  }

  /** strings.Join(parts, ", "). */
  function Join(parts: seq<string>): string
    decreases |parts|
  {
    if |parts| == 0 then ""
    else if |parts| == 1 then parts[0]
    else parts[0] + Separator + Join(parts[1..])
  }

  /** Joining the parts of a split gives back the string exactly. */
  lemma {:induction false} JoinSplit(s: string)
    ensures Join(Split(s)) == s
    decreases |s|
  {
    if |s| < 2 {
    } else if s[..2] == Separator {
      JoinSplit(s[2..]);
      assert s == s[..2] + s[2..];
    } else {
      var rest := Split(s[1..]);
      JoinSplit(s[1..]);
      var parts := [[s[0]] + rest[0]] + rest[1..];
      assert parts[1..] == rest[1..];
      assert s == [s[0]] + s[1..];
      if |rest| > 1 {
        assert Join(rest) == rest[0] + Separator + Join(rest[1..]);
      }
    }
  }

  /** The first part of a split is a prefix of the string. */
  lemma {:induction false} SplitHeadIsPrefix(s: string)
    ensures Split(s)[0] <= s
    decreases |s|
  {
    if |s| >= 2 && s[..2] != Separator {
      SplitHeadIsPrefix(s[1..]);
    }
  }

  /** No part of a split contains the separator. */
  lemma {:induction false} SplitPartsHaveNoSeparator(s: string)
    ensures forall k :: 0 <= k < |Split(s)| ==> !HasSeparator(Split(s)[k])
    decreases |s|
  {
    if |s| < 2 {
      forall k | 0 <= k < |Split(s)|
        ensures !HasSeparator(Split(s)[k])
      {
        assert Split(s)[k] == s;
      }
    } else if s[..2] == Separator {
      SplitPartsHaveNoSeparator(s[2..]);
      var parts := Split(s);
      assert parts == [""] + Split(s[2..]);
      forall k | 0 <= k < |parts|
        ensures !HasSeparator(parts[k])
      {
        if k > 0 {
          assert parts[k] == Split(s[2..])[k - 1];
        }
      }
    } else {
      var rest := Split(s[1..]);
      SplitPartsHaveNoSeparator(s[1..]);
      SplitHeadIsPrefix(s[1..]);
      var head := [s[0]] + rest[0];
      var parts := [head] + rest[1..];
      assert parts == Split(s);
      assert !HasSeparator(head) by {
        forall i | SeparatorAt(head, i)
          ensures false
        {
          if i > 0 {
            assert SeparatorAt(rest[0], i - 1);
          }
        }
      }
      forall k | 0 <= k < |parts|
        ensures !HasSeparator(parts[k])
      {
        if k > 0 {
          assert parts[k] == rest[k];
        }
      }
    }
  }

  /** A string without the separator splits into itself alone. */
  lemma {:induction false} SplitSeparatorFree(p: string)
    requires !HasSeparator(p)
    ensures Split(p) == [p]
    decreases |p|
  {
    if |p| >= 2 {
      assert p[..2] != Separator by {
        if p[..2] == Separator {
          assert SeparatorAt(p, 0);
        }
      }
      assert !HasSeparator(p[1..]) by {
        forall i | SeparatorAt(p[1..], i)
          ensures false
        {
          assert SeparatorAt(p, i + 1);
        }
      }
      SplitSeparatorFree(p[1..]);
      assert [p[0]] + p[1..] == p;
    }
  }

  /** A separator-free part followed by the separator is cut off as the
      first part, whatever follows. */
  lemma {:induction false} SplitAfterPart(p: string, rest: string)
    requires !HasSeparator(p)
    ensures Split(p + Separator + rest) == [p] + Split(rest)
    decreases |p|
  {
    var s := p + Separator + rest;
    if p == [] {
      assert s == Separator + rest;
      assert s[..2] == Separator;
      assert s[2..] == rest;
    } else {
      assert s[0] == p[0];
      assert s[..2] != Separator by {
        if |p| == 1 {
          assert s[1] == ',';
        } else {
          assert s[1] == p[1];
          if s[..2] == Separator {
            assert SeparatorAt(p, 0);
          }
        }
      }
      assert !HasSeparator(p[1..]) by {
        forall i | SeparatorAt(p[1..], i)
          ensures false
        {
          assert SeparatorAt(p, i + 1);
        }
      }
      SplitAfterPart(p[1..], rest);
      assert s[1..] == p[1..] + Separator + rest;
      assert [p[0]] + p[1..] == p;
    }
  }

  /** Splitting a join of separator-free parts gives back the parts, so
      Split and Join are inverse on non-empty lists of such parts. */
  lemma {:induction false} SplitJoin(parts: seq<string>)
    requires |parts| >= 1
    requires forall k :: 0 <= k < |parts| ==> !HasSeparator(parts[k])
    ensures Split(Join(parts)) == parts
    decreases |parts|
  {
    if |parts| == 1 {
      SplitSeparatorFree(parts[0]);
    } else {
      SplitJoin(parts[1..]);
      SplitAfterPart(parts[0], Join(parts[1..]));
      assert parts == [parts[0]] + parts[1..];
    }
  }

  /** The empty string splits into one empty part, not into no parts. */
  lemma SplitEmpty()
    ensures Split("") == [""]
  {
  }
}
