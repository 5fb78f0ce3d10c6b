/** The three string operations the stock screen relies on: `toLowerCase`,
    `includes` and the `<` ordering of JavaScript strings. */
module Strings {

  /** `toLowerCase` on one character. Covered: the capitals of Basic Latin
      (`A`..`Z`) and of Latin-1 Supplement (`À`..`Þ`, without the
      multiplication sign), each of which lies 32 code points below its
      small letter. Every other character is left as it is. */
  function LowerChar(c: char): char {
    if 'A' <= c <= 'Z' || ('\U{C0}' <= c <= '\U{DE}' && c != '\U{D7}') then
      (c as int + 32) as char
    else
      c
  }

  /** `toLowerCase` on a string, character by character. */
  function Lower(s: string): (r: string)
    ensures |r| == |s|
    ensures forall i :: 0 <= i < |s| ==> r[i] == LowerChar(s[i])
  {
    seq(|s|, i requires 0 <= i < |s| => LowerChar(s[i]))
  }

  /** Lower-casing twice is lower-casing once. */
  lemma LowerIdempotent(s: string)
    ensures Lower(Lower(s)) == Lower(s)
  {
  }

  /** The capitals `toLowerCase` changes, in three runs of consecutive code
      points, and the small letter each becomes, at the same position. */
  const BasicCapitals: string := "ABCDEFGHIJKLMNOPQRSTUVWXYZ"
  const BasicSmalls: string := "abcdefghijklmnopqrstuvwxyz"
  const LatinCapitals: string := "ÀÁÂÃÄÅÆÇÈÉÊËÌÍÎÏÐÑÒÓÔÕÖ"
  const LatinSmalls: string := "àáâãäåæçèéêëìíîïðñòóôõö"
  const LatinTailCapitals: string := "ØÙÚÛÜÝÞ"
  const LatinTailSmalls: string := "øùúûüýþ"
  const Capitals: string := BasicCapitals + LatinCapitals + LatinTailCapitals
  const Smalls: string := BasicSmalls + LatinSmalls + LatinTailSmalls

  /** `caps` holds the consecutive code points from `first` on, and `smalls`
      the same 32 code points higher. */
  ghost predicate Run(caps: string, smalls: string, first: int) {
    |caps| == |smalls| &&
    forall j :: 0 <= j < |caps| ==>
      caps[j] as int == first + j && smalls[j] as int == first + 32 + j
  }

  /** The Basic Latin run. */
  lemma BasicRun()
    ensures |BasicCapitals| == 26 && Run(BasicCapitals, BasicSmalls, 0x41)
  {
    forall j | 0 <= j < 26
      ensures BasicCapitals[j] as int == 0x41 + j && BasicSmalls[j] as int == 0x61 + j {
    }
  }

  /** The Latin-1 run up to the multiplication sign. */
  lemma LatinRun()
    ensures |LatinCapitals| == 23 && Run(LatinCapitals, LatinSmalls, 0xC0)
  {
    forall j | 0 <= j < 23
      ensures LatinCapitals[j] as int == 0xC0 + j && LatinSmalls[j] as int == 0xE0 + j {
    }
  }

  /** The Latin-1 run after the multiplication sign. */
  lemma LatinTailRun()
    ensures |LatinTailCapitals| == 7 && Run(LatinTailCapitals, LatinTailSmalls, 0xD8)
  {
    forall j | 0 <= j < 7
      ensures LatinTailCapitals[j] as int == 0xD8 + j && LatinTailSmalls[j] as int == 0xF8 + j {
    }
  }

  /** The three runs, given as texts, are the capitals `LowerChar` changes
      and the small letters it gives them. */
  lemma RunsAreLowerCase(b: string, bs: string, l: string, ls: string, t: string, ts: string)
    requires |b| == 26 && Run(b, bs, 0x41)
    requires |l| == 23 && Run(l, ls, 0xC0)
    requires |t| == 7 && Run(t, ts, 0xD8)
    ensures forall k :: 0 <= k < |b + l + t| ==>
      LowerChar((b + l + t)[k]) == (bs + ls + ts)[k] != (b + l + t)[k]
    ensures forall c :: LowerChar(c) != c ==> c in b + l + t
  {
    var caps, smalls := b + l + t, bs + ls + ts;
    forall k | 0 <= k < |caps| ensures LowerChar(caps[k]) == smalls[k] != caps[k] {
      if k < 26 {
        assert caps[k] == b[k] && smalls[k] == bs[k];
      } else if k < 49 {
        assert caps[k] == l[k - 26] && smalls[k] == ls[k - 26];
      } else {
        assert caps[k] == t[k - 49] && smalls[k] == ts[k - 49];
      }
    }
    forall c | LowerChar(c) != c ensures c in caps {
      if 'A' <= c <= 'Z' {
        assert caps[c as int - 0x41] == b[c as int - 0x41] == c;
      } else if c < '\U{D7}' {
        assert caps[26 + c as int - 0xC0] == l[c as int - 0xC0] == c;
      } else {
        assert caps[49 + c as int - 0xD8] == t[c as int - 0xD8] == c;
      }
    }
  }

  /** `caps` lists exactly the characters `LowerChar` changes, and `smalls`
      what each becomes, at the same position. */
  ghost predicate LowerTable(caps: string, smalls: string) {
    |caps| == |smalls| &&
    (forall k :: 0 <= k < |caps| ==> LowerChar(caps[k]) == smalls[k] != caps[k]) &&
    (forall c :: LowerChar(c) != c ==> c in caps)
  }

  /** The listed capitals and small letters are that table. */
  lemma LowerCharTable()
    ensures LowerTable(Capitals, Smalls)
  {
    BasicRun();
    LatinRun();
    LatinTailRun();
    RunsAreLowerCase(BasicCapitals, BasicSmalls, LatinCapitals, LatinSmalls,
                     LatinTailCapitals, LatinTailSmalls);
  }

  /** Lower-casing by a table: each listed capital becomes its small letter
      and every other character stays. */
  lemma LowerByTable(caps: string, smalls: string, s: string)
    requires LowerTable(caps, smalls)
    ensures forall i, k :: 0 <= i < |s| && 0 <= k < |caps| && s[i] == caps[k] ==>
      Lower(s)[i] == smalls[k]
    ensures forall i :: 0 <= i < |s| && s[i] !in caps ==> Lower(s)[i] == s[i]
    ensures Lower(s) == s <==> forall i :: 0 <= i < |s| ==> s[i] !in caps
  {
    if Lower(s) == s {
      forall i | 0 <= i < |s| ensures s[i] !in caps {
        assert LowerChar(s[i]) == s[i];
      }
    }
  }

  /** `toLowerCase` replaces each listed capital by its small letter and
      leaves every other character as it is. */
  lemma LowerFollowsTable(s: string)
    ensures forall i, k :: 0 <= i < |s| && 0 <= k < |Capitals| && s[i] == Capitals[k] ==>
      Lower(s)[i] == Smalls[k]
    ensures forall i :: 0 <= i < |s| && s[i] !in Capitals ==> Lower(s)[i] == s[i]
  {
    LowerCharTable();
    LowerByTable(Capitals, Smalls, s);
  }

  /** A text is its own lower-case form exactly when it holds none of the
      listed capitals. */
  lemma LowerUnchanged(s: string)
    ensures Lower(s) == s <==> forall i :: 0 <= i < |s| ==> s[i] !in Capitals
  {
    LowerCharTable();
    LowerByTable(Capitals, Smalls, s);
  }

  /** `needle` occurs in `hay` starting at position `i`. */
  ghost predicate OccursAt(hay: string, needle: string, i: int) {
    0 <= i && i + |needle| <= |hay| && hay[i..i + |needle|] == needle
  }

  /** `hay.includes(needle)`: is `needle` a prefix of some suffix of `hay`? */
  predicate Contains(hay: string, needle: string)
    decreases |hay|
  {
    if needle <= hay then true
    else if |hay| == 0 then false
    else Contains(hay[1..], needle)
  }

  /** A window of `hay` equal to `needle` is found by `Contains`. */
  lemma {:induction false} OccursThenContains(hay: string, needle: string, i: int)
    requires OccursAt(hay, needle, i)
    ensures Contains(hay, needle)
    decreases i
  {
    if i == 0 {
      assert hay[..|needle|] == hay[0..|needle|];
    } else if !(needle <= hay) {
      assert hay[1..][i - 1..i - 1 + |needle|] == hay[i..i + |needle|];
      OccursThenContains(hay[1..], needle, i - 1);
    }
  }

  /** When `Contains` succeeds there is a window of `hay` equal to `needle`. */
  lemma {:induction false} ContainsThenOccurs(hay: string, needle: string)
    requires Contains(hay, needle)
    ensures exists i :: OccursAt(hay, needle, i)
    decreases |hay|
  {
    if needle <= hay {
      assert hay[0..|needle|] == needle;
      assert OccursAt(hay, needle, 0);
    } else {
      ContainsThenOccurs(hay[1..], needle);
      var j :| OccursAt(hay[1..], needle, j);
      assert hay[1..][j..j + |needle|] == hay[j + 1..j + 1 + |needle|];
      assert OccursAt(hay, needle, j + 1);
    }
  }

  /** The search `Contains` performs finds an occurrence exactly when one
      exists: the empty needle occurs everywhere, and a non-empty needle
      occurs when some window of `hay` equals it. */
  lemma ContainsIffOccurs(hay: string, needle: string)
    ensures Contains(hay, needle) <==> exists i :: OccursAt(hay, needle, i)
  {
    if Contains(hay, needle) {
      ContainsThenOccurs(hay, needle);
    }
    if exists i :: OccursAt(hay, needle, i) {
      var i :| OccursAt(hay, needle, i);
      OccursThenContains(hay, needle, i);
    }
  }

  /** JavaScript's `a < b` on strings: the first differing character
      decides, and a proper prefix comes before the longer string. Characters
      are compared by code point, which agrees with JavaScript's UTF-16 code
      unit order inside the Basic Multilingual Plane. */
  predicate Less(a: string, b: string)
    decreases |a|
  {
    if |a| == 0 then |b| > 0
    else if |b| == 0 then false
    else if a[0] != b[0] then a[0] < b[0]
    else Less(a[1..], b[1..])
  }

  /** The textbook definition of lexicographic order, independent of the
      recursion in `Less`: after a common prefix of length `k`, either `a`
      ends while `b` goes on, or the next character of `a` is smaller. */
  ghost predicate LexBefore(a: string, b: string) {
    exists k :: 0 <= k <= |a| && k <= |b| && a[..k] == b[..k] &&
      ((k == |a| && k < |b|) || (k < |a| && k < |b| && a[k] < b[k]))
  }

  /** A common prefix followed by a decisive position puts `a` first. */
  lemma {:induction false} LexBeforeThenLess(a: string, b: string, k: int)
    requires 0 <= k <= |a| && k <= |b| && a[..k] == b[..k]
    requires (k == |a| && k < |b|) || (k < |a| && k < |b| && a[k] < b[k])
    ensures Less(a, b)
    decreases k
  {
    if k > 0 {
      assert a[0] == a[..k][0] && b[0] == b[..k][0];
      assert a[1..][..k - 1] == a[..k][1..] && b[1..][..k - 1] == b[..k][1..];
      LexBeforeThenLess(a[1..], b[1..], k - 1);
    }
  }

  /** When `a` is before `b`, a common prefix and a decisive position exist. */
  lemma {:induction false} LessThenLexBefore(a: string, b: string)
    requires Less(a, b)
    ensures LexBefore(a, b)
    decreases |a|
  {
    if |a| == 0 || a[0] != b[0] {
      assert a[..0] == b[..0];
    } else {
      LessThenLexBefore(a[1..], b[1..]);
      var k :| 0 <= k <= |a[1..]| && k <= |b[1..]| && a[1..][..k] == b[1..][..k] &&
        ((k == |a[1..]| && k < |b[1..]|) || (k < |a[1..]| && k < |b[1..]| && a[1..][k] < b[1..][k]));
      assert a[..k + 1] == [a[0]] + a[1..][..k];
      assert b[..k + 1] == [b[0]] + b[1..][..k];
    }
  }

  /** `Less` is lexicographic order. */
  lemma LessIsLexicographic(a: string, b: string)
    ensures Less(a, b) <==> LexBefore(a, b)
  {
    if Less(a, b) {
      LessThenLexBefore(a, b);
    }
    if LexBefore(a, b) {
      var k :| 0 <= k <= |a| && k <= |b| && a[..k] == b[..k] &&
        ((k == |a| && k < |b|) || (k < |a| && k < |b| && a[k] < b[k]));
      LexBeforeThenLess(a, b, k);
    }
  }

  /** No string is before itself. */
  lemma {:induction false} LessIrreflexive(a: string)
    ensures !Less(a, a)
    decreases |a|
  {
    if |a| > 0 { LessIrreflexive(a[1..]); }
  }

  /** Of two different strings, exactly one is before the other. */
  lemma {:induction false} LessTrichotomy(a: string, b: string)
    ensures a == b || Less(a, b) || Less(b, a)
    ensures !(Less(a, b) && Less(b, a))
    decreases |a|
  {
    if |a| > 0 && |b| > 0 && a[0] == b[0] {
      LessTrichotomy(a[1..], b[1..]);
      if a[1..] == b[1..] {
        assert a == [a[0]] + a[1..] && b == [b[0]] + b[1..];
      }
    }
  }

  /** The order is transitive. */
  lemma {:induction false} LessTransitive(a: string, b: string, c: string)
    requires Less(a, b) && Less(b, c)
    ensures Less(a, c)
    decreases |a|
  {
    if |a| > 0 && a[0] == b[0] && b[0] == c[0] {
      LessTransitive(a[1..], b[1..], c[1..]);
    }
  }
}
