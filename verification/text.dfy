/** String helpers with JavaScript semantics: `Array.prototype.join`,
    `String.prototype.split` on one character, number-to-string, ASCII case
    mapping, the `\s` character class and the lower-case underscore slug. */
module Text {

  /** `parts.join(sep)`: the empty list joins to the empty string. */
  function Join(parts: seq<string>, sep: string): string
    decreases |parts|
  {
    if |parts| == 0 then ""
    else if |parts| == 1 then parts[0]
    else parts[0] + sep + Join(parts[1..], sep)
  }

  /** `s.split(c)` for a one-character separator: always at least one piece. */
  function Split(s: string, c: char): (r: seq<string>)
    ensures |r| >= 1
    decreases |s|
  {
    if |s| == 0 then [""]
    else
      var rest := Split(s[1..], c);
      if s[0] == c then [""] + rest
      else [[s[0]] + rest[0]] + rest[1..]
  }

  predicate NoPieceHas(parts: seq<string>, c: char) {
    forall i :: 0 <= i < |parts| ==> c !in parts[i]
  }

  lemma JoinCons(p: string, parts: seq<string>, sep: string)
    requires |parts| >= 1
    ensures Join([p] + parts, sep) == p + sep + Join(parts, sep)
  {
    assert ([p] + parts)[1..] == parts;
  }

  /** Splitting a joined list gives the list back when no piece holds the separator. */
  lemma {:induction false} SplitJoin(parts: seq<string>, c: char)
    requires |parts| >= 1
    requires NoPieceHas(parts, c)
    ensures Split(Join(parts, [c]), c) == parts
    decreases |parts|
  {
    if |parts| == 1 {
      SplitPlain(parts[0], c);
    } else {
      SplitJoin(parts[1..], c);
      SplitPrefix(parts[0], Join(parts[1..], [c]), c);
      assert [parts[0]] + parts[1..] == parts;
    }
  }

  /** A string without the separator splits into itself. */
  lemma {:induction false} SplitPlain(w: string, c: char)
    requires c !in w
    ensures Split(w, c) == [w]
    decreases |w|
  {
    if |w| > 0 {
      SplitPlain(w[1..], c);
      assert [w[0]] + w[1..] == w;
    }
  }

  /** A leading separator-free word becomes the first piece. */
  lemma {:induction false} SplitPrefix(w: string, t: string, c: char)
    requires c !in w
    ensures Split(w + [c] + t, c) == [w] + Split(t, c)
    decreases |w|
  {
    var s := w + [c] + t;
    if |w| == 0 {
      assert s[1..] == t;
    } else {
      assert s[1..] == w[1..] + [c] + t;
      SplitPrefix(w[1..], t, c);
      assert [w[0]] + w[1..] == w;
    }
  }

  /** Joining the pieces of a split restores the string. */
  lemma {:induction false} JoinSplit(s: string, c: char)
    ensures Join(Split(s, c), [c]) == s
    decreases |s|
  {
    if |s| > 0 {
      var rest := Split(s[1..], c);
      JoinSplit(s[1..], c);
      if s[0] == c {
        JoinCons("", rest, [c]);
      } else if |rest| == 1 {
      } else {
        JoinCons([s[0]] + rest[0], rest[1..], [c]);
        JoinCons(rest[0], rest[1..], [c]);
        assert [rest[0]] + rest[1..] == rest;
      }
      assert [s[0]] + s[1..] == s;
    }
  }

  /** A join never introduces a character absent from both pieces and separator. */
  lemma {:induction false} JoinAvoids(parts: seq<string>, sep: string, c: char)
    requires NoPieceHas(parts, c)
    requires c !in sep
    ensures c !in Join(parts, sep)
    decreases |parts|
  {
    if |parts| > 1 {
      JoinAvoids(parts[1..], sep, c);
    }
  }

  /** One decimal digit. */
  function DigitChar(d: nat): (c: char)
    requires d < 10
    ensures '0' <= c <= '9'
  {
    "0123456789"[d]
  }

  /** A digit character reads back as its value. */
  lemma DigitCharValue(d: nat)
    requires d < 10
    ensures DigitChar(d) as int - '0' as int == d
  {
    if d < 5 {
      assert d == 0 || d == 1 || d == 2 || d == 3 || d == 4;
    } else {
      assert d == 5 || d == 6 || d == 7 || d == 8 || d == 9;
    }
  }

  function NatToString(n: nat): (r: string)
    ensures |r| >= 1
    ensures forall i :: 0 <= i < |r| ==> '0' <= r[i] <= '9'
    decreases n
  {
    if n < 10 then [DigitChar(n)] else NatToString(n / 10) + [DigitChar(n % 10)]
  }

  /** `String(n)` for an integral number. */
  function IntToString(n: int): (r: string)
    ensures forall i :: 0 <= i < |r| ==> r[i] == '-' || '0' <= r[i] <= '9'
  {
    if n < 0 then "-" + NatToString(-n) else NatToString(n)
  }

  /** Membership of ECMAScript's `\s` class (white space and line terminators). */
  predicate IsSpace(c: char) {
    || c == ' ' || c == '\t' || c == '\n' || c == '\r'
    || c == '\U{000B}' || c == '\U{000C}' || c == '\U{00A0}' || c == '\U{1680}'
    || ('\U{2000}' <= c <= '\U{200A}')
    || c == '\U{2028}' || c == '\U{2029}' || c == '\U{202F}' || c == '\U{205F}'
    || c == '\U{3000}' || c == '\U{FEFF}'
  }

  function Lower(c: char): char {
    if 'A' <= c <= 'Z' then (c as int - 'A' as int + 'a' as int) as char else c
  }

  function Upper(c: char): char {
    if 'a' <= c <= 'z' then (c as int - 'a' as int + 'A' as int) as char else c
  }

  function LowerAll(s: string): (r: string)
    ensures |r| == |s|
    ensures forall i :: 0 <= i < |s| ==> r[i] == Lower(s[i])
  {
    seq(|s|, i requires 0 <= i < |s| => Lower(s[i]))
  }

  function UpperAll(s: string): (r: string)
    ensures |r| == |s|
    ensures forall i :: 0 <= i < |s| ==> r[i] == Upper(s[i])
  {
    seq(|s|, i requires 0 <= i < |s| => Upper(s[i]))
  }

  predicate SpaceFree(s: string) {
    forall i :: 0 <= i < |s| ==> !IsSpace(s[i])
  }

  /** Drops the leading run of white space. */
  function DropSpaces(s: string): (r: string)
    ensures |r| <= |s|
    ensures r == s[|s| - |r|..]
    ensures |r| == 0 || !IsSpace(r[0])
    ensures forall i :: 0 <= i < |s| - |r| ==> IsSpace(s[i])
    decreases |s|
  {
    if |s| > 0 && IsSpace(s[0]) then DropSpaces(s[1..]) else s
  }

  /** `s.toLowerCase().replace(/\s+/g, "_")`: every maximal run of white space
      becomes a single underscore and letters are lower-cased. */
  function Slug(s: string): (r: string)
    ensures SpaceFree(r)
    ensures |r| <= |s|
    decreases |s|
  {
    if |s| == 0 then ""
    else if IsSpace(s[0]) then "_" + Slug(DropSpaces(s[1..]))
    else [Lower(s[0])] + Slug(s[1..])
  }

  /** Lower-casing is idempotent. */
  lemma LowerLower(c: char)
    ensures Lower(Lower(c)) == Lower(c)
  {
  }

  /** On a string without white space the slug only lower-cases. */
  lemma {:induction false} SlugOfSpaceFree(s: string)
    requires SpaceFree(s)
    ensures Slug(s) == LowerAll(s)
    decreases |s|
  {
    if |s| > 0 {
      SlugOfSpaceFree(s[1..]);
    }
  }

  /** Slugging a slug changes nothing. */
  lemma SlugIdempotent(s: string)
    ensures Slug(Slug(s)) == Slug(s)
  {
    var r := Slug(s);
    SlugOfSpaceFree(r);
    LowerAllOfSlug(s);
  }

  lemma {:induction false} LowerAllOfSlug(s: string)
    ensures LowerAll(Slug(s)) == Slug(s)
    decreases |s|
  {
    if |s| > 0 {
      if IsSpace(s[0]) {
        LowerAllOfSlug(DropSpaces(s[1..]));
      } else {
        LowerAllOfSlug(s[1..]);
        LowerLower(s[0]);
      }
    }
  }

  /** A white-space run between two words becomes exactly one underscore. */
  lemma SlugSeparates(a: string, gap: string, b: string)
    requires SpaceFree(a) && SpaceFree(b) && |gap| >= 1
    requires forall i :: 0 <= i < |gap| ==> IsSpace(gap[i])
    ensures Slug(a + gap + b) == LowerAll(a) + "_" + LowerAll(b)
  {
    var t := gap + b;
    SlugLeadingGap(gap, b);
    SlugOfSpaceFree(b);
    SlugAppend(a, t);
    assert a + gap + b == a + t;
  }

  lemma SlugLeadingGap(gap: string, b: string)
    requires |b| == 0 || !IsSpace(b[0])
    requires |gap| >= 1
    requires forall i :: 0 <= i < |gap| ==> IsSpace(gap[i])
    ensures Slug(gap + b) == "_" + Slug(b)
  {
    var t := gap + b;
    assert IsSpace(t[0]) by { assert t[0] == gap[0]; }
    assert t[1..] == gap[1..] + b;
    DropSpacesPrefix(gap[1..], b);
  }

  lemma {:induction false} DropSpacesPrefix(gap: string, b: string)
    requires forall i :: 0 <= i < |gap| ==> IsSpace(gap[i])
    requires |b| == 0 || !IsSpace(b[0])
    ensures DropSpaces(gap + b) == b
    decreases |gap|
  {
    if |gap| > 0 {
      assert (gap + b)[1..] == gap[1..] + b;
      DropSpacesPrefix(gap[1..], b);
    }
  }

  lemma {:induction false} SlugAppend(a: string, t: string)
    requires SpaceFree(a)
    ensures Slug(a + t) == LowerAll(a) + Slug(t)
    decreases |a|
  {
    if |a| > 0 {
      assert (a + t)[1..] == a[1..] + t;
      SlugAppend(a[1..], t);
    } else {
      assert a + t == t;
    }
  }
}
