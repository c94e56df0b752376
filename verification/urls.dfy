/** `sanitizeUrl`, the normaliser every rendered link passes through
    (src/utils/utils.tsx). */
module Urls {
  import opened Strings

  /** The regular expression `/^https?:\/\//i`: an `http://` or `https://`
      prefix, ASCII letters compared case-insensitively. */
  predicate HasScheme(s: string)
  {
    StartsWithIgnoringCase(s, "http://") || StartsWithIgnoringCase(s, "https://")
  }

  /** Whether a string has a scheme depends on its start only: text after a
      scheme keeps it. */
  lemma HasSchemeExtends(s: string, t: string)
    requires HasScheme(s)
    ensures HasScheme(s + t)
  {
    var st := s + t;
    assert forall i :: 0 <= i < |s| ==> st[i] == s[i];
  }

  /** `sanitizeUrl(url)`: the empty string becomes `#`; otherwise the input is
      trimmed and given an `https://` prefix unless it already has a scheme. */
  function SanitizeUrl(url: string): (r: string)
    ensures url == [] ==> r == "#"
    ensures url != [] ==> |Trim(url)| <= |r| && r[|r| - |Trim(url)|..] == Trim(url)
    ensures url != [] && HasScheme(Trim(url)) ==> r == Trim(url)
    ensures url != [] && !HasScheme(Trim(url)) ==> r == "https://" + Trim(url)
    ensures r != []
    ensures r == "#" || HasScheme(r)
  {
    if url == [] then "#"
    else
      var trimmed := Trim(url);
      if HasScheme(trimmed) then trimmed
      else
        HttpsPrefixHasScheme(trimmed);
        "https://" + trimmed
  }

  /** Any string that starts `https://` has a scheme. */
  lemma HttpsPrefixHasScheme(t: string)
    ensures HasScheme("https://" + t)
  {
    var s := "https://" + t;
    assert forall i :: 0 <= i < 8 ==> s[i] == "https://"[i];
  }

  /** White space only gives a bare `https://`, unlike the empty string. */
  lemma SanitizeBlank(url: string)
    requires url != []
    requires forall i :: 0 <= i < |url| ==> IsWhitespace(url[i])
    ensures SanitizeUrl(url) == "https://"
  {
  }

  /** Every non-`#` result is a fixed point: it is trimmed and has a scheme. */
  lemma {:induction false} SanitizeResultIsFixed(url: string)
    requires SanitizeUrl(url) != "#"
    ensures SanitizeUrl(SanitizeUrl(url)) == SanitizeUrl(url)
  {
    var r := SanitizeUrl(url);
    var t := Trim(url);
    if HasScheme(t) {
      TrimIdempotent(url);
    } else {
      HttpsPrefixHasScheme(t);
      assert r[0] == 'h';
      assert t == [] ==> r[|r| - 1] == '/';
      assert t != [] ==> r[|r| - 1] == t[|t| - 1];
      TrimOfTrimmed(r);
    }
  }

  /** Sanitizing is idempotent on non-empty input. */
  lemma SanitizeIdempotent(url: string)
    requires url != []
    ensures SanitizeUrl(SanitizeUrl(url)) == SanitizeUrl(url)
  {
    var t := Trim(url);
    if HasScheme(t) {
      assert t[0] == 'h' || t[0] == 'H';
    } else {
      assert ("https://" + t)[0] == 'h';
    }
    SanitizeResultIsFixed(url);
  }

  /** It is not idempotent on the empty string: `#` has no scheme. */
  lemma SanitizeEmptyNotIdempotent()
    ensures SanitizeUrl("") == "#"
    ensures SanitizeUrl(SanitizeUrl("")) == "https://#"
  {
    assert !StartsWithIgnoringCase("#", "http://");
    assert Trim("#") == "#" by { TrimOfTrimmed("#"); }
  }
}
