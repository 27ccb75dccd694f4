/** `String.prototype.trim` and the username clean-up of `join-game`. */
module Names {

  /** The characters JavaScript's `trim` strips: WhiteSpace (tab, vertical
      tab, form feed, space, no-break space, byte order mark and the other
      space separators) and LineTerminator (LF, CR, LS, PS). */
  predicate IsJsWhitespace(c: char)
  {
    c == '\t' || c == '\n' || c == '\U{B}' || c == '\U{C}' || c == '\r' || c == ' '
    || c == '\U{A0}' || c == '\U{1680}' || ('\U{2000}' <= c <= '\U{200A}')
    || c == '\U{2028}' || c == '\U{2029}' || c == '\U{202F}' || c == '\U{205F}'
    || c == '\U{3000}' || c == '\U{FEFF}'
  }

  /** The number of whitespace characters at the start of `s`. */
  function LeadingSpace(s: string): (k: nat)
    ensures k <= |s|
    ensures forall m :: 0 <= m < k ==> IsJsWhitespace(s[m])
    ensures k < |s| ==> !IsJsWhitespace(s[k])
  {
    if s == [] || !IsJsWhitespace(s[0]) then 0 else 1 + LeadingSpace(s[1..])
  }

  /** The number of whitespace characters at the end of `s`. */
  function TrailingSpace(s: string): (k: nat)
    ensures k <= |s|
    ensures forall m :: |s| - k <= m < |s| ==> IsJsWhitespace(s[m])
    ensures k < |s| ==> !IsJsWhitespace(s[|s| - 1 - k])
  {
    if s == [] || !IsJsWhitespace(s[|s| - 1]) then 0 else 1 + TrailingSpace(s[..|s| - 1])
  }

  /** `s.trim()`: `s` without its leading and trailing whitespace. */
  function Trim(s: string): (r: string)
    ensures |r| <= |s|
    ensures r != [] ==> !IsJsWhitespace(r[0]) && !IsJsWhitespace(r[|r| - 1])
    ensures r == [] <==> forall m :: 0 <= m < |s| ==> IsJsWhitespace(s[m])
    ensures (s == [] || (!IsJsWhitespace(s[0]) && !IsJsWhitespace(s[|s| - 1]))) ==> r == s
    ensures exists a, b :: 0 <= a <= b <= |s| && r == s[a..b]
                           && (forall m :: 0 <= m < a ==> IsJsWhitespace(s[m]))
                           && (forall m :: b <= m < |s| ==> IsJsWhitespace(s[m]))
  {
    var a := LeadingSpace(s);
    var b := if a == |s| then a else |s| - TrailingSpace(s);
    s[a..b]
  }

  /** `username.trim() || username`: the trimmed name, or the name as given
      when it is whitespace only.  A non-empty name stays non-empty. */
  function CleanUsername(username: string): (r: string)
    requires username != []
    ensures r != []
    ensures r == username || r == Trim(username)
    ensures (exists m :: 0 <= m < |username| && !IsJsWhitespace(username[m]))
            ==> !IsJsWhitespace(r[0]) && !IsJsWhitespace(r[|r| - 1])
  {
    var t := Trim(username);
    if t != [] then t else username
  }

  /** Trimming twice changes nothing more. */
  lemma TrimIdempotent(s: string)
    ensures Trim(Trim(s)) == Trim(s)
  {
  }
}
