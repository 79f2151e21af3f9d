/**
  Shortcode recognition: `EMOTE_REGEX = /^:([A-Z0-9_:]+):$/i` and the match step of
  `getEmoteFromContent`. A token qualifies only when the whole token is a colon, one or
  more name characters, and a colon; the name handed on is everything between the outer
  colons. The colon is itself a name character, so `":a:b:"` names `"a:b"`.
 */
module Shortcode {
  import opened Wrappers

  /** `[A-Z0-9_:]` under the `i` flag: ASCII letters of either case, digits, underscore, colon. */
  predicate IsNameChar(c: char)
  {
    'A' <= c <= 'Z' || 'a' <= c <= 'z' || '0' <= c <= '9' || c == '_' || c == ':'
  }

  /** The capture group `([A-Z0-9_:]+)`. */
  predicate IsName(s: string)
  {
    |s| >= 1 && forall i :: 0 <= i < |s| ==> IsNameChar(s[i])
  }

  /** The whole-token match of `EMOTE_REGEX`. */
  predicate IsShortcode(token: string)
  {
    |token| >= 3 && token[0] == ':' && token[|token| - 1] == ':' && IsName(token[1..|token| - 1])
  }

  /** `text.match(EMOTE_REGEX)?.[1]`: the name inside a shortcode, or None when the token does not match. */
  function EmoteName(token: string): (r: Option<string>)
    ensures r.Some? <==> IsShortcode(token)
    ensures r.Some? ==> IsName(r.value) && token == ":" + r.value + ":"
  {
    if IsShortcode(token) then Some(token[1..|token| - 1]) else None
  }

  /** Wrapping any name in colons gives a shortcode that names exactly it. */
  lemma ShortcodeRoundTrip(name: string)
    requires IsName(name)
    ensures EmoteName(":" + name + ":") == Some(name)
  {
    var t := ":" + name + ":";
    assert t[1..|t| - 1] == name;
    assert IsShortcode(t);
  }

  /** A token that matches is determined by its name: two shortcodes with the same name are the same token. */
  lemma ShortcodeInjective(a: string, b: string)
    requires EmoteName(a).Some? && EmoteName(a) == EmoteName(b)
    ensures a == b
  {
  }

  /** The outer colons are the first and last characters, whatever colons the name holds. */
  lemma ShortcodeExamples()
    ensures EmoteName(":PepeLaugh:") == Some("PepeLaugh")
    ensures EmoteName(":a:b:") == Some("a:b")
    ensures EmoteName(":::") == Some(":")
    ensures EmoteName("::") == None
    ensures EmoteName(":pepe") == None
    ensures EmoteName("x:pepe:") == None
    ensures EmoteName(":pe pe:") == None
  {
    assert IsName("PepeLaugh") && IsName("a:b") && IsName(":");
    ShortcodeRoundTrip("PepeLaugh");
    assert ":" + "PepeLaugh" + ":" == ":PepeLaugh:";
    ShortcodeRoundTrip("a:b");
    assert ":" + "a:b" + ":" == ":a:b:";
    ShortcodeRoundTrip(":");
    assert ":" + ":" + ":" == ":::";
    assert ":pe pe:"[1..6][2] == ' ';
  }
}
