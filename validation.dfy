/**
 * The input checks the shorten handler runs before it touches the table:
 * the URL check and the custom short-code check.
 */
module Validation {
  import opened Wrappers

  /** A request-body string field tested with JavaScript truthiness:
      present and not the empty string. */
  predicate Truthy(field: Option<string>)
  {
    field.Some? && field.value != ""
  }

  /** The URL guard of the shorten handler: the field must be truthy and
      pass the URI predicate, which stays abstract as `isUri`. */
  predicate UrlAccepted(url: Option<string>, isUri: string -> bool)
  {
    Truthy(url) && isUri(url.value)
  }

  /** One character of the class [a-zA-Z0-9-_]. */
  predicate IsCodeChar(c: char)
  {
    ('a' <= c <= 'z') || ('A' <= c <= 'Z') || ('0' <= c <= '9') || c == '-' || c == '_'
  }

  /** The anchored pattern ^[a-zA-Z0-9-_]+$, read the way the `+` repetition
      matches: one class character, then either the end of the input or
      another match of the same pattern. */
  predicate MatchesCodePattern(s: string)
    decreases |s|
  {
    |s| >= 1 && IsCodeChar(s[0]) && (|s| == 1 || MatchesCodePattern(s[1..]))
  }

  /** The pattern accepts exactly the non-empty strings made only of letters,
      digits, '-' and '_'. */
  lemma {:induction false} CodePatternIsCharset(s: string)
    ensures MatchesCodePattern(s) <==> (s != [] && forall i :: 0 <= i < |s| ==> IsCodeChar(s[i]))
    decreases |s|
  {
    if |s| > 1 {
      CodePatternIsCharset(s[1..]);
      if forall i :: 0 <= i < |s| ==> IsCodeChar(s[i]) {
        assert forall i :: 0 <= i < |s[1..]| ==> IsCodeChar(s[1..][i]) by {
          forall i | 0 <= i < |s[1..]| ensures IsCodeChar(s[1..][i]) {
            assert s[1..][i] == s[i + 1];
          }
        }
      }
      if MatchesCodePattern(s) {
        forall i | 0 <= i < |s| ensures IsCodeChar(s[i]) {
          if i > 0 {
            assert s[i] == s[1..][i - 1];
          }
        }
      }
    }
  }

  /** Two sample codes: "my-link_1" is accepted and "bad code!" is not. */
  lemma SampleCodes()
    ensures MatchesCodePattern("my-link_1")
    ensures !MatchesCodePattern("bad code!")
  {
  }
}
