/** The string built-ins the pages call: `toLowerCase`, `toUpperCase` on one
    character, `includes`, `trim`, `split` on a one-character separator and
    `join`. Case mapping covers the ASCII letters only. */
module JsString {

  function LowerChar(c: char): (r: char)
    ensures 'A' <= c <= 'Z' ==> r as int == c as int + 32
    ensures !('A' <= c <= 'Z') ==> r == c
  {
    if 'A' <= c <= 'Z' then (c as int + 32) as char else c
  }

  function UpperChar(c: char): (r: char)
    ensures 'a' <= c <= 'z' ==> r as int == c as int - 32
    ensures !('a' <= c <= 'z') ==> r == c
  {
    if 'a' <= c <= 'z' then (c as int - 32) as char else c
  }

  /** `s.toLowerCase()`: same length, every letter in lower case. */
  function ToLower(s: string): (r: string)
    ensures |r| == |s|
    ensures forall i :: 0 <= i < |s| ==> r[i] == LowerChar(s[i])
    ensures forall i :: 0 <= i < |r| ==> !('A' <= r[i] <= 'Z')
  {
    seq(|s|, i requires 0 <= i < |s| => LowerChar(s[i]))
  }

  /** `needle` occurs in `hay` starting at `i`. */
  ghost predicate OccursAt(hay: string, needle: string, i: int) {
    0 <= i && i + |needle| <= |hay| && hay[i..i + |needle|] == needle
  }

  lemma OccursShift(hay: string, needle: string, i: int)
    requires hay != [] && 1 <= i
    ensures OccursAt(hay, needle, i) <==> OccursAt(hay[1..], needle, i - 1)
  {
    if i + |needle| <= |hay| {
      var here, there := hay[i..i + |needle|], hay[1..][i - 1..i - 1 + |needle|];
      forall k | 0 <= k < |needle| ensures here[k] == there[k] {
        assert here[k] == hay[i + k] && there[k] == hay[1..][i - 1 + k];
      }
      assert here == there;
    }
  }

  lemma OccursInTail(hay: string, needle: string)
    requires hay != [] && |needle| <= |hay| && hay[..|needle|] != needle
    ensures (exists i :: OccursAt(hay, needle, i)) <==> (exists j :: OccursAt(hay[1..], needle, j))
  {
    if exists i :: OccursAt(hay, needle, i) {
      var i :| OccursAt(hay, needle, i);
      OccursShift(hay, needle, i);
    }
    if exists j :: OccursAt(hay[1..], needle, j) {
      var j :| OccursAt(hay[1..], needle, j);
      OccursShift(hay, needle, j + 1);
    }
  }

  /** `hay.includes(needle)`: some position of `hay` starts a copy of `needle`. */
  function Includes(hay: string, needle: string): (r: bool)
    ensures r <==> exists i :: OccursAt(hay, needle, i)
    decreases |hay|
  {
    if |needle| > |hay| then
      assert forall i :: !OccursAt(hay, needle, i);
      false
    else if hay[..|needle|] == needle then
      assert OccursAt(hay, needle, 0);
      true
    else
      var r := Includes(hay[1..], needle);
      OccursInTail(hay, needle);
      r
  }

  /** The white space and line terminators `trim` removes. */
  predicate IsSpace(c: char) {
    var n := c as int;
    n == 0x09 || n == 0x0A || n == 0x0B || n == 0x0C || n == 0x0D || n == 0x20 || n == 0xA0
    || n == 0x1680 || (0x2000 <= n <= 0x200A) || n == 0x2028 || n == 0x2029 || n == 0x202F
    || n == 0x205F || n == 0x3000 || n == 0xFEFF
  }

  /** Drops the leading white space: what is left is a suffix that does not
      start with white space, and all that was dropped is white space. */
  function TrimStart(s: string): (r: string)
    ensures |r| <= |s| && r == s[|s| - |r|..]
    ensures forall i :: 0 <= i < |s| - |r| ==> IsSpace(s[i])
    ensures r == [] || !IsSpace(r[0])
  {
    if s != [] && IsSpace(s[0]) then
      var r := TrimStart(s[1..]);
      assert forall i :: 1 <= i < |s| ==> s[i] == s[1..][i - 1];
      r
    else
      s
  }

  /** Drops the trailing white space, in the same way. */
  function TrimEnd(s: string): (r: string)
    ensures |r| <= |s| && r == s[..|r|]
    ensures forall i :: |r| <= i < |s| ==> IsSpace(s[i])
    ensures r == [] || !IsSpace(r[|r| - 1])
  {
    if s != [] && IsSpace(s[|s| - 1]) then
      TrimEnd(s[..|s| - 1])
    else
      s
  }

  /** `s.trim()`. */
  function Trim(s: string): string {
    TrimEnd(TrimStart(s))
  }

  /** A string trims to nothing exactly when every character is white space. */
  lemma TrimEmptyIffBlank(s: string)
    ensures Trim(s) == [] <==> forall i :: 0 <= i < |s| ==> IsSpace(s[i])
  {
  }

  /** Number of times `d` occurs in `s`. */
  function Count(s: string, d: char): (n: nat)
    ensures n <= |s|
    ensures n == 0 <==> d !in s
  {
    if s == [] then 0 else (if s[0] == d then 1 else 0) + Count(s[1..], d)
  }

  lemma {:induction false} CountAppend(a: string, b: string, d: char)
    ensures Count(a + b, d) == Count(a, d) + Count(b, d)
  {
    if a != [] {
      assert (a + b)[1..] == a[1..] + b;
      CountAppend(a[1..], b, d);
    } else {
      assert a + b == b;
    }
  }

  /** Position of the first `d` in `s`. */
  function IndexOf(s: string, d: char): (i: nat)
    requires d in s
    ensures i < |s| && s[i] == d && d !in s[..i]
  {
    if s[0] == d then 0 else IndexOf(s[1..], d) + 1
  }

  /** `s.split(d)`: the pieces between the occurrences of `d`; one more piece
      than there are separators, none of them containing `d`. */
  function Split(s: string, d: char): (r: seq<string>)
    ensures |r| == Count(s, d) + 1
    ensures forall k :: 0 <= k < |r| ==> d !in r[k]
    decreases |s|
  {
    if d !in s then [s]
    else
      var p := IndexOf(s, d);
      assert s == s[..p] + [d] + s[p + 1..];
      CountAppend(s[..p] + [d], s[p + 1..], d);
      CountAppend(s[..p], [d], d);
      [s[..p]] + Split(s[p + 1..], d)
  }

  /** Splitting a text that holds `d` gives the piece before the first `d`,
      then the pieces of the rest. */
  lemma SplitCons(s: string, d: char)
    requires d in s
    ensures Split(s, d) == [s[..IndexOf(s, d)]] + Split(s[IndexOf(s, d) + 1..], d)
  {
  }

  lemma JoinCons(w: string, words: seq<string>, sep: string)
    requires words != []
    ensures Join([w] + words, sep) == w + sep + Join(words, sep)
  {
    assert ([w] + words)[1..] == words;
  }

  /** `words.join(sep)`. */
  function Join(words: seq<string>, sep: string): string {
    if words == [] then []
    else if |words| == 1 then words[0]
    else words[0] + sep + Join(words[1..], sep)
  }
}
