/** Character-level helpers standing in for the Python string methods the
    handlers call: `str.isspace`/`str.split()` and `str.lower()`. */
module Text {
  import opened Wrappers

  /** The characters Python's `str.isspace()` accepts, which are the separators
      `str.split()` with no argument splits on. */
  predicate IsSpace(c: char): (b: bool)
    ensures b ==> !('0' <= c <= '9') && !('A' <= c <= 'Z') && !('a' <= c <= 'z') && c != '.'
  {
    || c == ' '
    || '\t' <= c <= '\r'
    || '\U{1C}' <= c <= '\U{1F}'
    || c == '\U{85}' || c == '\U{A0}' || c == '\U{1680}'
    || '\U{2000}' <= c <= '\U{200A}'
    || c == '\U{2028}' || c == '\U{2029}' || c == '\U{202F}'
    || c == '\U{205F}' || c == '\U{3000}'
  }

  /** The longest prefix of `s` that contains no separator. */
  function LeadingWord(s: string): (w: string)
    ensures |w| <= |s| && w == s[..|w|]
    ensures forall i | 0 <= i < |w| :: !IsSpace(w[i])
    ensures |w| == |s| || IsSpace(s[|w|])
  {
    if s == [] || IsSpace(s[0]) then [] else [s[0]] + LeadingWord(s[1..])
  }

  /** `s.split()[0]`: the first maximal run of non-separators. `None` stands for
      the IndexError Python raises when `s` holds separators only. */
  function FirstWord(s: string): (r: Option<string>)
    ensures r.None? <==> forall i | 0 <= i < |s| :: IsSpace(s[i])
    ensures r.Some? ==> r.value != [] && forall i | 0 <= i < |r.value| :: !IsSpace(r.value[i])
  {
    if s == [] then None
    else if IsSpace(s[0]) then FirstWord(s[1..])
    else Some(LeadingWord(s))
  }

  /** Whatever separators precede it and whatever follows a separator after it,
      the first word of a string is found exactly. */
  lemma {:induction false} FirstWordOf(pre: string, w: string, post: string)
    requires forall i | 0 <= i < |pre| :: IsSpace(pre[i])
    requires w != [] && forall i | 0 <= i < |w| :: !IsSpace(w[i])
    requires post == [] || IsSpace(post[0])
    ensures FirstWord(pre + w + post) == Some(w)
  {
    var s := pre + w + post;
    if pre == [] {
      assert s == w + post;
      assert !IsSpace(s[0]);
      assert forall i | 0 <= i < |w| :: s[i] == w[i];
      assert |w| == |s| || s[|w|] == post[0];
      assert LeadingWord(s) == w;
    } else {
      assert IsSpace(s[0]);
      assert s[1..] == pre[1..] + w + post;
      FirstWordOf(pre[1..], w, post);
    }
  }

  /** Python's `str.lower()` on one character, restricted to ASCII letters. */
  function LowerChar(c: char): char {
    if 'A' <= c <= 'Z' then (c as int + 32) as char else c
  }

  function Lower(s: string): (r: string)
    ensures |r| == |s|
    ensures forall i | 0 <= i < |s| :: 'A' <= s[i] <= 'Z' ==> r[i] as int == s[i] as int + 32
    ensures forall i | 0 <= i < |s| :: !('A' <= s[i] <= 'Z') ==> r[i] == s[i]
    ensures forall i | 0 <= i < |r| :: !('A' <= r[i] <= 'Z')
  {
    seq(|s|, i requires 0 <= i < |s| => LowerChar(s[i]))
  }
}
