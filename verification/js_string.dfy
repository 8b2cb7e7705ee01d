/**
 * The JavaScript string operations the task store relies on: `length`
 * (counted in UTF-16 code units), `trim`, `toLowerCase` and `includes`.
 * A string is a sequence of Unicode scalar values.
 */
module JsString {

  /** Number of UTF-16 code units that encode `c`: two for a character outside the Basic Multilingual Plane. */
  function Utf16Units(c: char): nat
  {
    if c as int < 0x1_0000 then 1 else 2
  }

  /** JavaScript's `s.length`: the number of UTF-16 code units of `s`. */
  function Utf16Length(s: string): (n: nat)
    ensures |s| <= n <= 2 * |s|
    ensures n == 0 <==> s == []
  {
    if s == [] then 0 else Utf16Units(s[0]) + Utf16Length(s[1..])
  }

  /** On text made of Basic Multilingual Plane characters only, `length` counts characters. */
  lemma {:induction false} Utf16LengthOfBmp(s: string)
    requires forall i :: 0 <= i < |s| ==> s[i] as int < 0x1_0000
    ensures Utf16Length(s) == |s|
  {
    if s != [] {
      Utf16LengthOfBmp(s[1..]);
    }
  }

  /** A character outside the Basic Multilingual Plane takes two code units, every other one. */
  lemma Utf16LengthOfChar(c: char)
    ensures Utf16Length([c]) == Utf16Units(c)
    ensures Utf16Length([c]) == if c as int >= 0x1_0000 then 2 else 1
  {
    assert [c][1..] == [];
  }

  /** The length of a concatenation is the sum of the lengths. */
  lemma {:induction false} Utf16LengthAppend(a: string, b: string)
    ensures Utf16Length(a + b) == Utf16Length(a) + Utf16Length(b)
  {
    if a == [] {
      assert a + b == b;
    } else {
      assert (a + b)[0] == a[0] && (a + b)[1..] == a[1..] + b;
      Utf16LengthAppend(a[1..], b);
    }
  }

  /** On text made only of characters outside the Basic Multilingual Plane, `length` is twice the character count. */
  lemma {:induction false} Utf16LengthOfAstral(s: string)
    requires forall i :: 0 <= i < |s| ==> s[i] as int >= 0x1_0000
    ensures Utf16Length(s) == 2 * |s|
  {
    if s != [] {
      Utf16LengthOfAstral(s[1..]);
    }
  }

  /**
   * The characters `String.prototype.trim` strips: the WhiteSpace and
   * LineTerminator code points of ECMA-262 (tab, vertical tab, form feed,
   * the byte-order mark, every space separator, line feed, carriage return,
   * line separator and paragraph separator).
   */
  predicate IsWhitespace(c: char)
    ensures IsWhitespace(c) ==> Utf16Units(c) == 1
  {
    || c == '\t' || c == '\n' || c == '\U{000B}' || c == '\U{000C}' || c == '\r'
    || c == ' ' || c == '\U{00A0}' || c == '\U{1680}'
    || ('\U{2000}' <= c <= '\U{200A}')
    || c == '\U{2028}' || c == '\U{2029}' || c == '\U{202F}' || c == '\U{205F}'
    || c == '\U{3000}' || c == '\U{FEFF}'
  }

  predicate AllWhitespace(s: string)
  {
    forall i :: 0 <= i < |s| ==> IsWhitespace(s[i])
  }

  /** `s` neither starts nor ends with whitespace. */
  predicate Trimmed(s: string)
  {
    s == [] || (!IsWhitespace(s[0]) && !IsWhitespace(s[|s| - 1]))
  }

  /** `s` with its leading whitespace removed. */
  function TrimStart(s: string): (r: string)
    ensures |r| <= |s|
    ensures r == [] || !IsWhitespace(r[0])
  {
    if s != [] && IsWhitespace(s[0]) then TrimStart(s[1..]) else s
  }

  /** `s` with its trailing whitespace removed. */
  function TrimEnd(s: string): (r: string)
    ensures |r| <= |s|
    ensures r == [] || !IsWhitespace(r[|r| - 1])
  {
    if s != [] && IsWhitespace(s[|s| - 1]) then TrimEnd(s[..|s| - 1]) else s
  }

  /** What `TrimStart` removes is whitespace, and what it keeps is the rest of `s`. */
  lemma {:induction false} TrimStartShape(s: string)
    ensures TrimStart(s) == s[|s| - |TrimStart(s)|..]
    ensures AllWhitespace(s[..|s| - |TrimStart(s)|])
  {
    if s != [] && IsWhitespace(s[0]) {
      TrimStartShape(s[1..]);
      var n := |s| - |TrimStart(s)|;
      assert s[1..][..n - 1] == s[1..n];
    }
  }

  /** What `TrimEnd` removes is whitespace, and what it keeps is the start of `s`. */
  lemma {:induction false} TrimEndShape(s: string)
    ensures TrimEnd(s) == s[..|TrimEnd(s)|]
    ensures AllWhitespace(s[|TrimEnd(s)|..])
  {
    if s != [] && IsWhitespace(s[|s| - 1]) {
      var p := s[..|s| - 1];
      TrimEndShape(p);
      var n := |TrimEnd(s)|;
      assert s[n..] == p[n..] + [s[|s| - 1]];
    }
  }

  /** JavaScript's `s.trim()`. */
  function Trim(s: string): (r: string)
    ensures Trimmed(r)
    ensures |r| <= |s|
  {
    var front := TrimStart(s);
    TrimEndShape(front);
    TrimEnd(front)
  }

  lemma {:induction false} TrimStartSkips(lead: string, rest: string)
    requires AllWhitespace(lead)
    requires rest == [] || !IsWhitespace(rest[0])
    ensures TrimStart(lead + rest) == rest
  {
    if lead != [] {
      assert (lead + rest)[1..] == lead[1..] + rest;
      TrimStartSkips(lead[1..], rest);
    }
  }

  lemma {:induction false} TrimEndSkips(rest: string, trail: string)
    requires AllWhitespace(trail)
    requires rest == [] || !IsWhitespace(rest[|rest| - 1])
    ensures TrimEnd(rest + trail) == rest
  {
    if trail != [] {
      var t := trail[..|trail| - 1];
      assert (rest + trail)[..|rest + trail| - 1] == rest + t;
      TrimEndSkips(rest, t);
    }
  }

  /**
   * Reference characterisation of `trim`: whenever `s` is whitespace, then a
   * core that neither starts nor ends with whitespace, then whitespace, the
   * trimmed string is exactly that core.
   */
  lemma TrimIsCore(s: string, lead: string, core: string, trail: string)
    requires s == lead + core + trail
    requires AllWhitespace(lead) && AllWhitespace(trail)
    requires Trimmed(core)
    ensures Trim(s) == core
  {
    if core == [] {
      assert AllWhitespace(lead + trail);
      TrimStartSkips(lead + trail, []);
      assert s == (lead + trail) + [];
    } else {
      assert s == lead + (core + trail);
      TrimStartSkips(lead, core + trail);
      TrimEndSkips(core, trail);
    }
  }

  /** Number of whitespace characters `trim` removes from the front of `s`. */
  function LeadLength(s: string): nat
  {
    |s| - |TrimStart(s)|
  }

  /**
   * Trimming cuts `s` into leading whitespace, the result, and trailing
   * whitespace: the result is the block of `s` between them.
   */
  lemma TrimSplits(s: string)
    ensures LeadLength(s) + |Trim(s)| <= |s|
    ensures Trim(s) == s[LeadLength(s)..LeadLength(s) + |Trim(s)|]
    ensures AllWhitespace(s[..LeadLength(s)])
    ensures AllWhitespace(s[LeadLength(s) + |Trim(s)|..])
  {
    var a := TrimStart(s);
    var lo := |s| - |a|;
    var r := TrimEnd(a);
    TrimStartShape(s);
    TrimEndShape(a);
    assert r == Trim(s);
    assert a == s[lo..];
    assert r == a[..|r|];
    assert a[..|r|] == s[lo..lo + |r|];
    assert s[lo + |r|..] == a[|r|..];
  }

  /** Trimming twice is trimming once. */
  lemma TrimIdempotent(s: string)
    ensures Trim(Trim(s)) == Trim(s)
  {
  }

  /** JavaScript's `toLowerCase` on one character, restricted to the ASCII letters. */
  function ToLowerChar(c: char): char
  {
    if 'A' <= c <= 'Z' then (c as int + 32) as char else c
  }

  /** JavaScript's `s.toLowerCase()`, restricted to the ASCII letters. */
  function ToLower(s: string): (r: string)
    ensures |r| == |s|
    ensures forall i :: 0 <= i < |s| ==> r[i] == ToLowerChar(s[i])
  {
    if s == [] then [] else [ToLowerChar(s[0])] + ToLower(s[1..])
  }

  /** Lower-casing leaves no upper-case ASCII letter and lower-casing again changes nothing. */
  lemma ToLowerIdempotent(s: string)
    ensures forall i :: 0 <= i < |s| ==> !('A' <= ToLower(s)[i] <= 'Z')
    ensures ToLower(ToLower(s)) == ToLower(s)
  {
  }

  /** Lower-casing keeps the UTF-16 length. */
  lemma {:induction false} ToLowerUtf16Length(s: string)
    ensures Utf16Length(ToLower(s)) == Utf16Length(s)
  {
    if s != [] {
      ToLowerUtf16Length(s[1..]);
      assert ToLower(s)[1..] == ToLower(s[1..]);
    }
  }

  /** JavaScript's `s.includes(t)`: `t` occurs in `s` as a contiguous block. */
  function Includes(s: string, t: string): (b: bool)
    ensures t == [] ==> b
    ensures b ==> |t| <= |s|
  {
    if t <= s then true
    else if s == [] then false
    else Includes(s[1..], t)
  }

  /** `t` occurs in `s` starting at position `i`. */
  predicate OccursAt(s: string, t: string, i: int)
  {
    0 <= i <= |s| - |t| && s[i..i + |t|] == t
  }

  /** `includes` holds exactly when `t` occurs at some position of `s`. */
  lemma {:induction false} IncludesIff(s: string, t: string)
    ensures Includes(s, t) <==> exists i :: OccursAt(s, t, i)
  {
    if t <= s {
      assert OccursAt(s, t, 0);
    } else if s == [] {
    } else {
      IncludesIff(s[1..], t);
      if Includes(s, t) {
        var i :| OccursAt(s[1..], t, i);
        assert s[i + 1..i + 1 + |t|] == s[1..][i..i + |t|];
        assert OccursAt(s, t, i + 1);
      }
      if exists i :: OccursAt(s, t, i) {
        var i :| OccursAt(s, t, i);
        if i == 0 {
          assert false;
        }
        assert s[1..][i - 1..i - 1 + |t|] == s[i..i + |t|];
        assert OccursAt(s[1..], t, i - 1);
      }
    }
  }
}
