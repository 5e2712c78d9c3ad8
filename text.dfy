/** The JavaScript string operations the console uses: `toLowerCase`,
    `toUpperCase`, `includes`, `trim() !== ''`, `split`, `join`, `padStart`
    and number-to-string conversion. Case mapping covers ASCII letters only. */
module Text {

  /** A character `String.prototype.trim` removes and `\s` matches
      (ECMAScript WhiteSpace and LineTerminator). */
  predicate IsWhitespace(c: char) {
    c == '\t' || c == '\n' || c == '\U{000B}' || c == '\U{000C}' || c == '\r'
    || c == ' ' || c == '\U{00A0}' || c == '\U{1680}'
    || ('\U{2000}' <= c <= '\U{200A}')
    || c == '\U{2028}' || c == '\U{2029}' || c == '\U{202F}' || c == '\U{205F}'
    || c == '\U{3000}' || c == '\U{FEFF}'
  }

  /** `s.trim() === ''`. */
  predicate IsBlank(s: string) {
    forall i :: 0 <= i < |s| ==> IsWhitespace(s[i])
  }

  function LowerChar(c: char): char {
    if 'A' <= c <= 'Z' then (c as int + 32) as char else c
  }

  function UpperChar(c: char): char {
    if 'a' <= c <= 'z' then (c as int - 32) as char else c
  }

  /** `s.toLowerCase()` on ASCII letters. */
  function Lower(s: string): (r: string)
    ensures |r| == |s|
    ensures forall i :: 0 <= i < |s| ==> r[i] == LowerChar(s[i])
  {
    seq(|s|, i requires 0 <= i < |s| => LowerChar(s[i]))
  }

  /** `needle` starts at position `i` of `hay`. */
  predicate OccursAt(hay: string, needle: string, i: int) {
    0 <= i && i + |needle| <= |hay| && hay[i..i + |needle|] == needle
  }

  /** `hay.includes(needle)`: some position of `hay` starts a copy of `needle`. */
  function Includes(hay: string, needle: string): (b: bool)
    ensures b <==> exists i :: OccursAt(hay, needle, i)
  {
    IndexOf(hay, needle, 0).At?
  }

  /** The first position at or after `from` where `needle` occurs in `hay`, or `NotFound` where `indexOf` gives -1. */
  function IndexOf(hay: string, needle: string, from: nat): (r: Maybe)
    requires from <= |hay|
    ensures r.At? ==> from <= r.at && OccursAt(hay, needle, r.at)
    ensures r.At? ==> forall j :: from <= j < r.at ==> !OccursAt(hay, needle, j)
    ensures r.NotFound? ==> forall j :: from <= j ==> !OccursAt(hay, needle, j)
    decreases |hay| - from
  {
    if from + |needle| > |hay| then NotFound
    else if hay[from..from + |needle|] == needle then At(from)
    else IndexOf(hay, needle, from + 1)
  }

  /** A position or nothing, as `indexOf` returns. */
  datatype Maybe = NotFound | At(at: nat)

  /** `s.split(sep)` for a non-empty separator: the pieces between the
      occurrences of `sep`, found left to right without overlapping. */
  function Split(s: string, sep: string): (r: seq<string>)
    requires |sep| > 0
    ensures |r| >= 1
    decreases |s|
  {
    match IndexOf(s, sep, 0)
    case NotFound => [s]
    case At(i) => [s[..i]] + Split(s[i + |sep|..], sep)
  }

  /** `xs.join(sep)`. */
  function Join(xs: seq<string>, sep: string): string {
    if |xs| == 0 then ""
    else if |xs| == 1 then xs[0]
    else xs[0] + sep + Join(xs[1..], sep)
  }

  /** No proper prefix of `sep` is also a suffix of it, so two occurrences
      of `sep` never overlap and none can straddle a piece and a separator. */
  predicate NoBorder(sep: string) {
    forall k :: 0 < k < |sep| ==> sep[..k] != sep[|sep| - k..]
  }

  /** In `x + sep + rest`, the first occurrence of `sep` is the one right after `x`,
      when `x` holds no `sep` and `sep` has no border. */
  lemma FirstSeparator(x: string, sep: string, rest: string)
    requires |sep| > 0 && NoBorder(sep) && !Includes(x, sep)
    ensures IndexOf(x + sep + rest, sep, 0) == At(|x|)
  {
    var s := x + sep + rest;
    assert s[|x|..|x| + |sep|] == sep;
    forall j | 0 <= j < |x|
      ensures !OccursAt(s, sep, j)
    {
      if j + |sep| <= |x| {
        assert s[j..j + |sep|] == x[j..j + |sep|];
        assert !OccursAt(x, sep, j);
      } else {
        var k := j + |sep| - |x|;
        assert 0 < k < |sep|;
        var w := s[j..j + |sep|];
        forall t | 0 <= t < k
          ensures w[|sep| - k + t] == sep[t]
        {
          assert w[|sep| - k + t] == s[|x| + t];
        }
        assert w[|sep| - k..] == sep[..k];
        assert sep[..k] != sep[|sep| - k..];
      }
    }
    assert OccursAt(s, sep, |x|);
    var r := IndexOf(s, sep, 0);
    assert r.At?;
    assert r.at == |x|;
  }

  /** A string without `sep` splits into itself. */
  lemma SplitWithout(x: string, sep: string)
    requires |sep| > 0 && !Includes(x, sep)
    ensures Split(x, sep) == [x]
  {
  }

  /** Joining and splitting again gives back the pieces, provided there is at
      least one piece, no piece contains the separator, and the separator has
      no border. */
  lemma {:induction false} SplitJoin(xs: seq<string>, sep: string)
    requires |sep| > 0 && NoBorder(sep) && |xs| > 0
    requires forall i :: 0 <= i < |xs| ==> !Includes(xs[i], sep)
    ensures Split(Join(xs, sep), sep) == xs
  {
    if |xs| == 1 {
      SplitWithout(xs[0], sep);
    } else {
      var rest := Join(xs[1..], sep);
      FirstSeparator(xs[0], sep, rest);
      var s := xs[0] + sep + rest;
      assert s[..|xs[0]|] == xs[0];
      assert s[|xs[0]| + |sep|..] == rest;
      SplitJoin(xs[1..], sep);
      assert xs == [xs[0]] + xs[1..];
    }
  }

  /** Splitting and joining again gives back the string, whatever it holds. */
  lemma {:induction false} JoinSplit(s: string, sep: string)
    requires |sep| > 0
    ensures Join(Split(s, sep), sep) == s
    decreases |s|
  {
    var r := IndexOf(s, sep, 0);
    if r.At? {
      var i := r.at;
      var tail := s[i + |sep|..];
      var parts := Split(tail, sep);
      JoinSplit(tail, sep);
      assert Split(s, sep) == [s[..i]] + parts;
      var xs := [s[..i]] + parts;
      assert |xs| >= 2 && xs[0] == s[..i] && xs[1..] == parts;
      assert Join(xs, sep) == s[..i] + sep + Join(parts, sep);
      assert s[i..i + |sep|] == sep;
      assert s == s[..i] + s[i..i + |sep|] + tail;
    }
  }

  /** A one-character needle occurs exactly where that character does. */
  lemma IncludesChar(s: string, c: char)
    ensures Includes(s, [c]) <==> c in s
  {
    if c in s {
      var i :| 0 <= i < |s| && s[i] == c;
      assert s[i..i + 1] == [c];
      assert OccursAt(s, [c], i);
    }
    if Includes(s, [c]) {
      var i :| OccursAt(s, [c], i);
      assert s[i] == s[i..i + 1][0] == c;
    }
  }

  /** Every character of `p` occurs in `s`. */
  predicate CharsWithin(p: string, s: string) {
    forall c :: c in p ==> c in s
  }

  /** Every character of every piece of a split comes from the split string. */
  lemma {:induction false} SplitChars(s: string, sep: string)
    requires |sep| > 0
    ensures forall k :: 0 <= k < |Split(s, sep)| ==> CharsWithin(Split(s, sep)[k], s)
    decreases |s|
  {
    match IndexOf(s, sep, 0)
    case NotFound =>
    case At(i) =>
      var tail := s[i + |sep|..];
      SplitChars(tail, sep);
      var rest := Split(tail, sep);
      assert Split(s, sep) == [s[..i]] + rest;
      SliceWithin(s, 0, i);
      SliceWithin(s, i + |sep|, |s|);
      forall k | 0 <= k < |rest|
        ensures CharsWithin(rest[k], s)
      {
        assert CharsWithin(rest[k], tail);
      }
  }

  /** A slice's characters come from the string it is cut from. */
  lemma SliceWithin(s: string, a: nat, b: nat)
    requires a <= b <= |s|
    ensures CharsWithin(s[a..b], s)
  {
    forall c | c in s[a..b]
      ensures c in s
    {
      var t :| 0 <= t < b - a && s[a..b][t] == c;
      assert s[a + t] == c;
    }
  }

  /** A one-character separator never has a border. */
  lemma SingleCharNoBorder(sep: string)
    requires |sep| == 1
    ensures NoBorder(sep)
  {
  }

  /** ", " has no border: its first character is not its last. */
  lemma CommaSpaceNoBorder()
    ensures NoBorder(", ")
  {
    assert ", "[..1] == [','];
    assert ", "[1..] == [' '];
  }

  function DigitChar(d: nat): char
    requires d < 10
  {
    ('0' as int + d) as char
  }

  /** `String(n)` for a natural number: its decimal digits, most significant first. */
  function NatToString(n: nat): (r: string)
    ensures |r| >= 1
    ensures n < 10 <==> |r| == 1
    ensures forall i :: 0 <= i < |r| ==> '0' <= r[i] <= '9'
  {
    if n < 10 then [DigitChar(n)] else NatToString(n / 10) + [DigitChar(n % 10)]
  }

  /** `String(n)` for any integer. */
  function IntToString(n: int): string {
    if n < 0 then "-" + NatToString(-n) else NatToString(n)
  }

  /** Different numbers print differently. */
  lemma {:induction false} NatToStringInjective(a: nat, b: nat)
    requires NatToString(a) == NatToString(b)
    ensures a == b
  {
    if a >= 10 && b >= 10 {
      var sa, sb := NatToString(a), NatToString(b);
      assert sa[|sa| - 1] == DigitChar(a % 10) && sb[|sb| - 1] == DigitChar(b % 10);
      assert sa[..|sa| - 1] == NatToString(a / 10);
      assert sb[..|sb| - 1] == NatToString(b / 10);
      NatToStringInjective(a / 10, b / 10);
    }
  }

  /** Numbers below 100 print with at most two digits. */
  lemma TwoDigits(n: nat)
    requires n < 100
    ensures |NatToString(n)| <= 2
  {
    if n >= 10 {
      assert NatToString(n) == NatToString(n / 10) + [DigitChar(n % 10)];
    }
  }

  /** `s.padStart(n, pad)`: `pad` repeated in front until the length is `n`. */
  function PadStart(s: string, n: nat, pad: char): (r: string)
    ensures |r| == if |s| >= n then |s| else n
    ensures r[|r| - |s|..] == s
    ensures forall i :: 0 <= i < |r| - |s| ==> r[i] == pad
  {
    if |s| >= n then s else seq(n - |s|, _ => pad) + s
  }
}
