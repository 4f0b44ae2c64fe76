/**
 * The handful of Python string and list built-ins the core relies on:
 * `str.isspace`, `str.split()`, `sep.join`, `str.strip()`, `str.lower()`,
 * `str.replace` of one character, the `in` substring test, prefix slicing
 * `s[:k]` and `str(i)` for integers.
 */
module Text {

  /** Python's `str.isspace()` for one character (the characters `str.split()` splits on). */
  predicate IsSpace(c: char) {
    var n := c as int;
    n == 0x20 || 0x09 <= n <= 0x0D || 0x1C <= n <= 0x1F || n == 0x85 || n == 0xA0 ||
    n == 0x1680 || 0x2000 <= n <= 0x200A || n == 0x2028 || n == 0x2029 ||
    n == 0x202F || n == 0x205F || n == 0x3000
  }

  predicate NoSpace(w: string) {
    forall i :: 0 <= i < |w| ==> !IsSpace(w[i])
  }

  predicate AllSpace(s: string) {
    forall i :: 0 <= i < |s| ==> IsSpace(s[i])
  }

  /** The longest prefix of `s` without whitespace. */
  function LeadingWord(s: string): (w: string)
    ensures w <= s && NoSpace(w)
    ensures |w| == |s| || IsSpace(s[|w|])
    ensures s != [] && !IsSpace(s[0]) ==> w != []
  {
    if s == [] || IsSpace(s[0]) then [] else [s[0]] + LeadingWord(s[1..])
  }

  /** Python's `s.split()`: the maximal runs of non-whitespace characters, in order. */
  function Words(s: string): (ws: seq<string>)
    ensures forall i :: 0 <= i < |ws| ==> ws[i] != [] && NoSpace(ws[i])
    decreases |s|
  {
    if s == [] then []
    else if IsSpace(s[0]) then Words(s[1..])
    else
      var w := LeadingWord(s);
      [w] + Words(s[|w|..])
  }

  /** Python's `sep.join(parts)`. */
  function JoinWith(sep: string, parts: seq<string>): string {
    if parts == [] then ""
    else if |parts| == 1 then parts[0]
    else parts[0] + sep + JoinWith(sep, parts[1..])
  }

  /** `" ".join(s.split())`: runs of whitespace collapsed to one space, ends trimmed. */
  function Normalize(s: string): string {
    JoinWith(" ", Words(s))
  }

  /** `split()` finds no word exactly when the text is empty or all whitespace. */
  lemma {:induction false} WordsEmptyIff(s: string)
    ensures Words(s) == [] <==> AllSpace(s)
    decreases |s|
  {
    if s != [] && IsSpace(s[0]) {
      WordsEmptyIff(s[1..]);
      if AllSpace(s[1..]) {
        forall i | 0 <= i < |s| ensures IsSpace(s[i]) {
          if i > 0 { assert s[i] == s[1..][i - 1]; }
        }
      }
    }
  }

  /** Joining non-empty parts gives the empty string only for no parts at all. */
  lemma {:induction false} JoinEmptyIff(sep: string, parts: seq<string>)
    requires forall i :: 0 <= i < |parts| ==> parts[i] != []
    ensures JoinWith(sep, parts) == [] <==> parts == []
  {
    if |parts| > 1 {
      assert |JoinWith(sep, parts)| >= |parts[0]|;
    }
  }

  /** The normalised text is empty exactly when the input is empty or all whitespace. */
  lemma NormalizeEmptyIff(s: string)
    ensures Normalize(s) == [] <==> AllSpace(s)
  {
    WordsEmptyIff(s);
    JoinEmptyIff(" ", Words(s));
  }

  lemma {:induction false} LeadingWordOfJoin(w: string, t: string)
    requires w != [] && NoSpace(w)
    requires t == [] || IsSpace(t[0])
    ensures LeadingWord(w + t) == w
    decreases |w|
  {
    var u := w + t;
    assert u[0] == w[0];
    if |w| > 1 {
      var rest := w[1..];
      assert u[1..] == rest + t;
      assert NoSpace(rest) by {
        forall i | 0 <= i < |rest| ensures !IsSpace(rest[i]) {
          assert rest[i] == w[i + 1];
        }
      }
      LeadingWordOfJoin(rest, t);
      assert w == [w[0]] + rest;
    } else {
      assert u[1..] == t;
      assert LeadingWord(t) == [];
      assert w == [w[0]];
    }
  }

  /** Splitting a space-joined list of words gives the words back. */
  lemma {:induction false} WordsOfJoin(ws: seq<string>)
    requires forall i :: 0 <= i < |ws| ==> ws[i] != [] && NoSpace(ws[i])
    ensures Words(JoinWith(" ", ws)) == ws
  {
    if |ws| == 1 {
      LeadingWordOfJoin(ws[0], []);
      assert ws[0] + [] == ws[0];
      assert ws[0][|ws[0]|..] == [];
      assert ws == [ws[0]];
    } else if |ws| > 1 {
      var rest := JoinWith(" ", ws[1..]);
      assert JoinWith(" ", ws) == ws[0] + (" " + rest);
      WordsOfWordThenSpace(ws[0], rest);
      WordsOfJoin(ws[1..]);
      assert ws == [ws[0]] + ws[1..];
    }
  }

  /** A word followed by a space and more text splits into the word and the words of the rest. */
  lemma WordsOfWordThenSpace(w: string, rest: string)
    requires w != [] && NoSpace(w)
    ensures Words(w + (" " + rest)) == [w] + Words(rest)
  {
    var t := " " + rest;
    var s := w + t;
    LeadingWordOfJoin(w, t);
    assert s[0] == w[0];
    assert s[|w|..] == t;
    assert t[0] == ' ' && t[1..] == rest;
  }

  /** Normalising is idempotent: normalised text is a fixed point. */
  lemma NormalizeIdempotent(s: string)
    ensures Normalize(Normalize(s)) == Normalize(s)
  {
    WordsOfJoin(Words(s));
  }

  /** Python's `s.lstrip()`. */
  function StripLeft(s: string): (r: string)
    ensures r == [] || !IsSpace(r[0])
    ensures |r| <= |s| && r == s[|s| - |r|..]
  {
    if s != [] && IsSpace(s[0]) then StripLeft(s[1..]) else s
  }

  /** Python's `s.rstrip()`. */
  function StripRight(s: string): (r: string)
    ensures r == [] || !IsSpace(r[|r| - 1])
    ensures r <= s
  {
    if s != [] && IsSpace(s[|s| - 1]) then StripRight(s[..|s| - 1]) else s
  }

  /** Python's `s.strip()`. */
  function Strip(s: string): string {
    StripRight(StripLeft(s))
  }

  /** Stripping leaves nothing exactly when the text is empty or all whitespace. */
  lemma {:induction false} StripEmptyIff(s: string)
    ensures Strip(s) == [] <==> AllSpace(s)
    decreases |s|
  {
    if s != [] && IsSpace(s[0]) {
      StripEmptyIff(s[1..]);
      if AllSpace(s[1..]) {
        forall i | 0 <= i < |s| ensures IsSpace(s[i]) {
          if i > 0 { assert s[i] == s[1..][i - 1]; }
        }
      }
    } else if s != [] {
      StripRightKeepsFirst(s);
    }
  }

  lemma {:induction false} StripRightKeepsFirst(s: string)
    requires s != [] && !IsSpace(s[0])
    ensures StripRight(s) != [] && StripRight(s)[0] == s[0]
    decreases |s|
  {
    if IsSpace(s[|s| - 1]) {
      StripRightKeepsFirst(s[..|s| - 1]);
    }
  }

  /** Whitespace around a body that begins and ends with a visible character is stripped away. */
  lemma StripSurrounded(pre: string, body: string, post: string)
    requires AllSpace(pre) && AllSpace(post)
    requires body != [] && !IsSpace(body[0]) && !IsSpace(body[|body| - 1])
    ensures Strip(pre + body + post) == body
  {
    StripLeftOfSpaces(pre, body + post);
    assert pre + body + post == pre + (body + post);
    StripRightOfSpaces(body, post);
  }

  lemma {:induction false} StripLeftOfSpaces(pre: string, s: string)
    requires AllSpace(pre)
    requires s != [] && !IsSpace(s[0])
    ensures StripLeft(pre + s) == s
    decreases |pre|
  {
    if pre != [] {
      assert (pre + s)[1..] == pre[1..] + s;
      StripLeftOfSpaces(pre[1..], s);
    }
  }

  lemma {:induction false} StripRightOfSpaces(s: string, post: string)
    requires AllSpace(post)
    requires s != [] && !IsSpace(s[|s| - 1])
    ensures StripRight(s + post) == s
    decreases |post|
  {
    if post != [] {
      assert (s + post)[..|s + post| - 1] == s + post[..|post| - 1];
      StripRightOfSpaces(s, post[..|post| - 1]);
    } else {
      assert s + post == s;
    }
  }

  /** `str.lower()` on one character (ASCII letters only). */
  function LowerChar(c: char): char {
    if 'A' <= c <= 'Z' then (c as int + 32) as char else c
  }

  /** `str.lower()`. */
  function Lower(s: string): (r: string)
    ensures |r| == |s|
    ensures forall i :: 0 <= i < |s| ==> r[i] == LowerChar(s[i])
  {
    seq(|s|, i requires 0 <= i < |s| => LowerChar(s[i]))
  }

  /** `s.replace(old, new)` for single characters. */
  function ReplaceChar(s: string, from: char, to: char): (r: string)
    ensures |r| == |s|
    ensures forall i :: 0 <= i < |s| ==> r[i] == if s[i] == from then to else s[i]
  {
    seq(|s|, i requires 0 <= i < |s| => if s[i] == from then to else s[i])
  }

  /** Python's substring test `needle in hay`. */
  predicate Contains(hay: string, needle: string) {
    needle <= hay || (hay != [] && Contains(hay[1..], needle))
  }

  lemma {:induction false} ContainsSuffix(a: string, b: string, needle: string)
    requires Contains(b, needle)
    ensures Contains(a + b, needle)
    decreases |a|
  {
    if a != [] {
      assert (a + b)[1..] == a[1..] + b;
      ContainsSuffix(a[1..], b, needle);
    } else {
      assert a + b == b;
    }
  }

  /** Every middle piece of a concatenation occurs in it. */
  lemma ContainsMiddle(a: string, x: string, b: string)
    ensures Contains(a + x + b, x)
  {
    assert x <= x + b;
    ContainsSuffix(a, x + b, x);
    assert a + x + b == a + (x + b);
  }

  /** Every part of a join occurs in the joined string. */
  lemma {:induction false} JoinContainsPart(sep: string, parts: seq<string>, i: nat)
    requires i < |parts|
    ensures Contains(JoinWith(sep, parts), parts[i])
  {
    if |parts| == 1 {
      ContainsMiddle([], parts[0], []);
      assert [] + parts[0] + [] == parts[0];
    } else if i == 0 {
      ContainsMiddle([], parts[0], sep + JoinWith(sep, parts[1..]));
      assert [] + parts[0] + (sep + JoinWith(sep, parts[1..])) == JoinWith(sep, parts);
    } else {
      JoinContainsPart(sep, parts[1..], i - 1);
      ContainsSuffix(parts[0] + sep, JoinWith(sep, parts[1..]), parts[i]);
    }
  }

  /** `needle in hay` holds exactly when `needle` starts at some position of `hay`. */
  lemma {:induction false} ContainsIff(hay: string, needle: string)
    ensures Contains(hay, needle) <==> exists i :: 0 <= i <= |hay| && needle <= hay[i..]
  {
    if hay != [] {
      ContainsIff(hay[1..], needle);
      if exists i :: 0 <= i <= |hay| && needle <= hay[i..] {
        var i :| 0 <= i <= |hay| && needle <= hay[i..];
        if i > 0 {
          assert hay[1..][i - 1..] == hay[i..];
        }
      }
      if Contains(hay[1..], needle) && !(needle <= hay) {
        var i :| 0 <= i <= |hay[1..]| && needle <= hay[1..][i..];
        assert hay[1..][i..] == hay[i + 1..];
      }
    } else {
      assert hay[0..] == hay;
    }
  }

  /** Substring containment is transitive. */
  lemma ContainsTrans(a: string, b: string, c: string)
    requires Contains(a, b) && Contains(b, c)
    ensures Contains(a, c)
  {
    ContainsIff(a, b);
    ContainsIff(b, c);
    var i :| 0 <= i <= |a| && b <= a[i..];
    var j :| 0 <= j <= |b| && c <= b[j..];
    assert c <= a[i + j..] by {
      forall t | 0 <= t < |c| ensures c[t] == a[i + j..][t] {
        assert c[t] == b[j + t] == a[i..][j + t];
      }
    }
    ContainsIff(a, c);
  }

  /** A join whose first part is non-empty starts with that part's first character. */
  lemma JoinStart(sep: string, parts: seq<string>)
    requires parts != [] && parts[0] != []
    ensures JoinWith(sep, parts) != [] && JoinWith(sep, parts)[0] == parts[0][0]
  {
  }

  /** A join whose last part is non-empty ends with that part's last character. */
  lemma {:induction false} JoinEnd(sep: string, parts: seq<string>)
    requires parts != [] && parts[|parts| - 1] != []
    ensures JoinWith(sep, parts) != []
    ensures JoinWith(sep, parts)[|JoinWith(sep, parts)| - 1] == parts[|parts| - 1][|parts[|parts| - 1]| - 1]
  {
    if |parts| > 1 {
      JoinEnd(sep, parts[1..]);
    }
  }

  /** Every character of a word of `s` is a character of `s`. */
  lemma {:induction false} WordsChars(s: string)
    ensures forall i, c :: 0 <= i < |Words(s)| && c in Words(s)[i] ==> c in s
    decreases |s|
  {
    if s != [] {
      if IsSpace(s[0]) {
        WordsChars(s[1..]);
        forall i, c | 0 <= i < |Words(s)| && c in Words(s)[i] ensures c in s {
          assert c in s[1..];
          var t :| 0 <= t < |s[1..]| && s[1..][t] == c;
          assert s[t + 1] == c;
        }
      } else {
        var w := LeadingWord(s);
        WordsChars(s[|w|..]);
        forall i, c | 0 <= i < |Words(s)| && c in Words(s)[i] ensures c in s {
          if i == 0 {
            var t :| 0 <= t < |w| && w[t] == c;
            assert s[t] == c;
          } else {
            assert Words(s)[i] == Words(s[|w|..])[i - 1];
            assert c in s[|w|..];
            var t :| 0 <= t < |s[|w|..]| && s[|w|..][t] == c;
            assert s[|w| + t] == c;
          }
        }
      }
    }
  }

  lemma IndexLeft<T>(a: seq<T>, b: seq<T>, i: nat)
    requires i < |a|
    ensures (a + b)[i] == a[i]
  {
  }

  lemma IndexRight<T>(a: seq<T>, b: seq<T>, i: nat)
    requires i < |b|
    ensures (a + b)[|a| + i] == b[i]
  {
  }

  lemma MiddleIndex<T>(a: seq<T>, b: seq<T>, c: seq<T>, i: nat)
    requires i < |b|
    ensures (a + b + c)[|a| + i] == b[i]
  {
  }

  lemma DropLeft<T>(a: seq<T>, b: seq<T>, k: nat)
    requires k <= |b|
    ensures (a + b)[|a| + k..] == b[k..]
  {
  }

  /** `s[:k]` for a list or string, with Python's meaning of a negative `k`. */
  function PySliceTo<T>(s: seq<T>, k: int): (r: seq<T>)
    ensures r <= s
    ensures 0 <= k ==> |r| == if k < |s| then k else |s|
    ensures k < 0 ==> |r| == if |s| + k < 0 then 0 else |s| + k
  {
    if k >= 0 then (if k < |s| then s[..k] else s)
    else if |s| + k < 0 then [] else s[..|s| + k]
  }

  function DigitChar(d: nat): char
    requires d < 10
  {
    "0123456789"[d]
  }

  /** `str(n)` for a natural number. */
  function NatToString(n: nat): (r: string)
    ensures r != []
    ensures forall i :: 0 <= i < |r| ==> '0' <= r[i] <= '9'
  {
    if n < 10 then [DigitChar(n)] else NatToString(n / 10) + [DigitChar(n % 10)]
  }

  /** `str(i)` for an integer. */
  function IntToString(i: int): string {
    if i < 0 then "-" + NatToString(-i) else NatToString(i)
  }
}
