/** String trimming as JavaScript's `String.prototype.trim`, over a fixed set of
    white-space characters. */
module Text {

  /** The white-space and line-terminator characters that `trim` removes: tab, vertical
      tab, form feed, the byte-order mark, every space separator of Unicode category Zs
      (the ASCII space, no-break space, ogham space mark, the en quad to hair space range,
      narrow no-break space, medium mathematical space and ideographic space), line feed,
      carriage return and the two Unicode line and paragraph separators. */
  predicate IsSpace(c: char)
  {
    || c == '\t' || c == '\U{B}' || c == '\U{C}' || c == '\U{FEFF}'
    || c == ' ' || c == '\U{A0}' || c == '\U{1680}' || '\U{2000}' <= c <= '\U{200A}'
    || c == '\U{202F}' || c == '\U{205F}' || c == '\U{3000}'
    || c == '\n' || c == '\r' || c == '\U{2028}' || c == '\U{2029}'
  }

  /** The number of white-space characters at the front of `s`. */
  function LeadingSpaces(s: string): (n: nat)
    ensures n <= |s|
    ensures forall k | 0 <= k < n :: IsSpace(s[k])
    ensures n < |s| ==> !IsSpace(s[n])
  {
    if s == [] || !IsSpace(s[0]) then 0 else 1 + LeadingSpaces(s[1..])
  }

  /** The number of white-space characters at the back of `s`. */
  function TrailingSpaces(s: string): (n: nat)
    ensures n <= |s|
    ensures forall k | |s| - n <= k < |s| :: IsSpace(s[k])
    ensures n < |s| ==> !IsSpace(s[|s| - n - 1])
  {
    if s == [] || !IsSpace(s[|s| - 1]) then 0 else 1 + TrailingSpaces(s[..|s| - 1])
  }

  /** `s.trim()`: the slice of `s` left after removing white space at both ends. */
  function Trim(s: string): (r: string)
    ensures exists i, j | 0 <= i <= j <= |s| ::
              && r == s[i..j]
              && (forall k | 0 <= k < i :: IsSpace(s[k]))
              && (forall k | j <= k < |s| :: IsSpace(s[k]))
    ensures r != [] ==> !IsSpace(r[0]) && !IsSpace(r[|r| - 1])
  {
    var front := s[LeadingSpaces(s)..];
    var n := TrailingSpaces(front);
    assert front[..|front| - n] == s[LeadingSpaces(s)..LeadingSpaces(s) + |front| - n];
    front[..|front| - n]
  }

  /** A trimmed string is empty exactly when the original is blank, which is the test
      behind the source's `!text.trim()`. */
  lemma TrimEmptyIffBlank(s: string)
    ensures Trim(s) == [] <==> forall k | 0 <= k < |s| :: IsSpace(s[k])
  {
    var i := LeadingSpaces(s);
    if i < |s| {
      var front := s[i..];
      assert front[0] == s[i];
      assert |front| - TrailingSpaces(front) > 0;
    }
  }

  /** Trimming twice is the same as trimming once. */
  lemma TrimIdempotent(s: string)
    ensures Trim(Trim(s)) == Trim(s)
  {
    var t := Trim(s);
    if t != [] {
      assert LeadingSpaces(t) == 0;
      assert TrailingSpaces(t) == 0;
      assert t[0..] == t && t[..|t|] == t;
    }
  }
}
