/** The handful of JavaScript string operations the storefront scripts rely on:
    `toLowerCase`, `trim`, `split` on a one-character separator, `includes`
    and a global one-character `replace`. */
module JsStrings {

  /** An upper-case ASCII letter. */
  predicate IsUpper(c: char)
  {
    'A' <= c <= 'Z'
  }

  /** `toLowerCase` on one character, restricted to ASCII letters. */
  function LowerChar(c: char): char
  {
    if IsUpper(c) then (c as int + 32) as char else c
  }

  /** True when no character of `s` is an upper-case ASCII letter. */
  predicate IsLowered(s: string)
  {
    forall i :: 0 <= i < |s| ==> !IsUpper(s[i])
  }

  /** `s.toLowerCase()`: letters fold to lower case, every other character is kept. */
  function Lower(s: string): (r: string)
    ensures |r| == |s|
    ensures IsLowered(r)
    ensures forall i :: 0 <= i < |s| && !IsUpper(s[i]) ==> r[i] == s[i]
    ensures forall i :: 0 <= i < |s| && IsUpper(s[i]) ==> r[i] as int == s[i] as int + 32
  {
    seq(|s|, i requires 0 <= i < |s| => LowerChar(s[i]))
  }

  /** Folding to lower case twice is folding once; a lowered string is its own fold. */
  lemma LowerOfLowered(s: string)
    requires IsLowered(s)
    ensures Lower(s) == s
  {
  }

  lemma LowerIdempotent(s: string)
    ensures Lower(Lower(s)) == Lower(s)
  {
    LowerOfLowered(Lower(s));
  }

  /** The characters `trim` removes: ECMAScript WhiteSpace and LineTerminator. */
  predicate IsSpace(c: char)
  {
    var n := c as int;
    n == 0x09 || n == 0x0A || n == 0x0B || n == 0x0C || n == 0x0D || n == 0x20
    || n == 0xA0 || n == 0x1680 || (0x2000 <= n <= 0x200A) || n == 0x2028
    || n == 0x2029 || n == 0x202F || n == 0x205F || n == 0x3000 || n == 0xFEFF
  }

  /** Neither end of `s` is a space. */
  predicate IsTrimmed(s: string)
  {
    |s| == 0 || (!IsSpace(s[0]) && !IsSpace(s[|s| - 1]))
  }

  predicate AllSpace(s: string)
  {
    forall i :: 0 <= i < |s| ==> IsSpace(s[i])
  }

  function TrimStart(s: string): (r: string)
    ensures |r| <= |s| && r == s[|s| - |r|..]
    ensures AllSpace(s[..|s| - |r|])
    ensures |r| > 0 ==> !IsSpace(r[0])
  {
    if |s| > 0 && IsSpace(s[0]) then TrimStart(s[1..]) else s
  }

  function TrimEnd(s: string): (r: string)
    ensures |r| <= |s| && r == s[..|r|]
    ensures AllSpace(s[|r|..])
    ensures |r| > 0 ==> !IsSpace(r[|r| - 1])
  {
    if |s| > 0 && IsSpace(s[|s| - 1]) then TrimEnd(s[..|s| - 1]) else s
  }

  /** `s.trim()`: the result is a slice of `s` cut only at spaces, with no space at
      either end. */
  function Trim(s: string): (r: string)
    ensures IsTrimmed(r)
    ensures exists i, j :: 0 <= i <= j <= |s| && r == s[i..j] && AllSpace(s[..i]) && AllSpace(s[j..])
  {
    var a := TrimStart(s);
    var r := TrimEnd(a);
    var i := |s| - |a|;
    var j := i + |r|;
    assert r == s[i..j];
    assert AllSpace(s[..i]);
    assert s[j..] == a[|r|..];
    assert AllSpace(s[j..]);
    r
  }

  /** A string with no space at either end is left alone by `trim`. */
  lemma {:induction false} TrimOfTrimmed(s: string)
    requires IsTrimmed(s)
    ensures Trim(s) == s
  {
    assert TrimStart(s) == s;
  }

  /** `Trim` and `Lower` commute, since lower-casing never creates or removes a space. */
  lemma LowerKeepsSpaces(s: string)
    ensures forall i :: 0 <= i < |s| ==> (IsSpace(Lower(s)[i]) <==> IsSpace(s[i]))
  {
  }

  /** Lower-casing a trimmed string leaves it trimmed. */
  lemma LowerKeepsTrimmed(s: string)
    requires IsTrimmed(s)
    ensures IsTrimmed(Lower(s))
  {
    if |s| > 0 {
      LowerKeepsSpaces(s);
      assert IsSpace(Lower(s)[0]) <==> IsSpace(s[0]);
      assert IsSpace(Lower(s)[|s| - 1]) <==> IsSpace(s[|s| - 1]);
    }
  }

  /** Trimming and lower-casing never introduce a character that is not a lower-case letter. */
  lemma TrimLowerAvoids(s: string, c: char)
    requires c !in s && !('a' <= c <= 'z')
    ensures c !in Lower(Trim(s))
  {
    var a := TrimStart(s);
    assert c !in a by {
      forall k | 0 <= k < |a| ensures a[k] != c { assert a[k] == s[|s| - |a| + k]; }
    }
    var t := TrimEnd(a);
    assert c !in t by {
      forall k | 0 <= k < |t| ensures t[k] != c { assert t[k] == a[k]; }
    }
    assert Trim(s) == t;
    LowerAvoids(t, c);
  }

  /** Lower-casing introduces no character other than a lower-case letter. */
  lemma LowerAvoids(t: string, c: char)
    requires c !in t && !('a' <= c <= 'z')
    ensures c !in Lower(t)
  {
    var l := Lower(t);
    forall k | 0 <= k < |l| ensures l[k] != c {
      assert l[k] == LowerChar(t[k]);
    }
  }

  // ---------------------------------------------------------------------------
  // split / join on one separator character

  /** Inverse of `split`: the pieces glued back with the separator. */
  function Join(parts: seq<string>, sep: char): string
    requires |parts| >= 1
  {
    if |parts| == 1 then parts[0] else parts[0] + [sep] + Join(parts[1..], sep)
  }

  function CountChar(s: string, c: char): nat
  {
    if |s| == 0 then 0 else (if s[0] == c then 1 else 0) + CountChar(s[1..], c)
  }

  /** `s.split(sep)` for a one-character separator: one piece more than there are
      separators, no piece holds the separator, and joining the pieces gives `s`
      back. The empty string splits into one empty piece. */
  function Split(s: string, sep: char): (r: seq<string>)
    ensures |r| == CountChar(s, sep) + 1
    ensures forall i :: 0 <= i < |r| ==> sep !in r[i]
    ensures Join(r, sep) == s
  {
    if |s| == 0 then [""]
    else
      var rest := Split(s[1..], sep);
      if s[0] == sep then
        [""] + rest
      else
        var r := [[s[0]] + rest[0]] + rest[1..];
        assert |rest| > 1 ==> Join(rest, sep) == rest[0] + [sep] + Join(rest[1..], sep);
        assert r[1..] == rest[1..];
        assert s == [s[0]] + s[1..];
        r
  }

  /** Splitting a join of separator-free pieces gives the pieces back. */
  lemma {:induction false} SplitJoin(parts: seq<string>, sep: char)
    requires |parts| >= 1
    requires forall i :: 0 <= i < |parts| ==> sep !in parts[i]
    ensures Split(Join(parts, sep), sep) == parts
    decreases |parts|, |parts[0]|
  {
    var p := parts[0];
    if |p| == 0 {
      if |parts| == 1 {
      } else {
        var tail := Join(parts[1..], sep);
        assert Join(parts, sep) == [sep] + tail;
        assert ([sep] + tail)[1..] == tail;
        SplitJoin(parts[1..], sep);
        assert parts == [""] + parts[1..];
      }
    } else {
      var shorter := parts[0 := p[1..]];
      assert forall i :: 0 <= i < |shorter| ==> sep !in shorter[i];
      SplitJoin(shorter, sep);
      assert shorter[1..] == parts[1..];
      assert Join(parts, sep) == [p[0]] + Join(shorter, sep);
      assert ([p[0]] + Join(shorter, sep))[1..] == Join(shorter, sep);
      assert p == [p[0]] + p[1..];
    }
  }

  // ---------------------------------------------------------------------------
  // includes

  /** `needle` occurs in `hay` starting at position `i`. */
  predicate OccursAt(needle: string, hay: string, i: int)
  {
    0 <= i && i + |needle| <= |hay| && hay[i..i + |needle|] == needle
  }

  ghost predicate IsSubstring(needle: string, hay: string)
  {
    exists i :: OccursAt(needle, hay, i)
  }

  function StartsWith(hay: string, prefix: string): (b: bool)
    ensures b <==> OccursAt(prefix, hay, 0)
  {
    |prefix| <= |hay| && hay[..|prefix|] == prefix
  }

  /** `hay.includes(needle)`, found by trying each start position in turn. */
  function Includes(hay: string, needle: string): (b: bool)
    ensures b <==> IsSubstring(needle, hay)
    decreases |hay|
  {
    if StartsWith(hay, needle) then true
    else if |hay| == 0 then
      false
    else
      var b := Includes(hay[1..], needle);
      assert forall i :: OccursAt(needle, hay[1..], i) ==> OccursAt(needle, hay, i + 1) by {
        forall i | OccursAt(needle, hay[1..], i) ensures OccursAt(needle, hay, i + 1) {
          assert hay[i + 1..i + 1 + |needle|] == hay[1..][i..i + |needle|];
        }
      }
      assert forall i :: OccursAt(needle, hay, i) && i > 0 ==> OccursAt(needle, hay[1..], i - 1) by {
        forall i | OccursAt(needle, hay, i) && i > 0 ensures OccursAt(needle, hay[1..], i - 1) {
          assert hay[i..i + |needle|] == hay[1..][i - 1..i - 1 + |needle|];
        }
      }
      b
  }

  /** Occurrence is transitive: a string that contains `mid` contains everything `mid` contains. */
  lemma {:induction false} SubstringTransitive(inner: string, mid: string, outer: string)
    requires IsSubstring(inner, mid) && IsSubstring(mid, outer)
    ensures IsSubstring(inner, outer)
  {
    var i :| OccursAt(inner, mid, i);
    var j :| OccursAt(mid, outer, j);
    forall k | 0 <= k < |inner|
      ensures outer[j + i + k] == inner[k]
    {
      assert inner[k] == mid[i..i + |inner|][k] == mid[i + k];
      assert mid[i + k] == outer[j..j + |mid|][i + k] == outer[j + i + k];
    }
    assert outer[j + i..j + i + |inner|] == inner;
    assert OccursAt(inner, outer, j + i);
  }

  // ---------------------------------------------------------------------------
  // replace(/c/g, d)

  /** `s.replace(/from/g, to)` for single characters: every `from` becomes `to`, and
      nothing else moves. */
  function ReplaceAll(s: string, from: char, to: char): (r: string)
    ensures |r| == |s|
    ensures from != to ==> from !in r
    ensures forall i :: 0 <= i < |s| ==> r[i] == (if s[i] == from then to else s[i])
  {
    seq(|s|, i requires 0 <= i < |s| => if s[i] == from then to else s[i])
  }
}
