/** The video preview's player language: the lower-cased locale
    when the player ships it, English otherwise. */
module PlayerLang {

  const Supported: seq<string> := ["en", "zh-cn", "zh-tw"]
  const Fallback: string := "en"

  /** `toLowerCase` on one character, for the ASCII letters. */
  function LowerChar(c: char): (r: char)
    ensures !('A' <= r <= 'Z')
    ensures 'A' <= c <= 'Z' ==> 'a' <= r <= 'z' && r as int - c as int == 'a' as int - 'A' as int
    ensures !('A' <= c <= 'Z') ==> r == c
  {
    if 'A' <= c <= 'Z' then (c as int + ('a' as int - 'A' as int)) as char else c
  }

  /** `toLowerCase` on a string: every ASCII capital becomes the matching
      small letter, every other character stays, the length is kept. */
  function ToLower(s: string): (r: string)
    ensures |r| == |s|
    ensures forall i :: 0 <= i < |s| ==> r[i] == LowerChar(s[i])
    ensures forall i :: 0 <= i < |r| ==> !('A' <= r[i] <= 'Z')
    ensures forall i :: 0 <= i < |s| && !('A' <= s[i] <= 'Z') ==> r[i] == s[i]
  {
    seq(|s|, i requires 0 <= i < |s| => LowerChar(s[i]))
  }

  /** A string without upper-case letters is its own lower case. */
  lemma ToLowerFixes(s: string)
    requires forall i :: 0 <= i < |s| ==> !('A' <= s[i] <= 'Z')
    ensures ToLower(s) == s
  {
  }

  /** The language handed to the player. */
  function Lang(locale: string): (r: string)
    ensures r in Supported
    ensures ToLower(locale) in Supported ==> r == ToLower(locale)
    ensures ToLower(locale) !in Supported ==> r == Fallback
  {
    var lower := ToLower(locale);
    if lower in Supported then lower else Fallback
  }

  /** The choice ignores case, and choosing again from the chosen language
      changes nothing. */
  lemma LangIsStable(locale: string)
    ensures Lang(ToLower(locale)) == Lang(locale)
    ensures Lang(Lang(locale)) == Lang(locale)
  {
    var r := Lang(locale);
    ToLowerFixes(ToLower(locale));
    assert r == Supported[0] || r == Supported[1] || r == Supported[2];
    ToLowerFixes(r);
  }

  /** "FR" is not shipped and falls back to "en"; "ZH-CN" and "zh-TW" are
      shipped under their lower-case names; "en-US" is not in the list. */
  lemma LangExamples()
    ensures Lang("FR") == "en"
    ensures Lang("ZH-CN") == "zh-cn"
    ensures Lang("zh-TW") == "zh-tw"
    ensures Lang("en-US") == "en"
  {
    assert ToLower("ZH-CN") == "zh-cn";
    assert ToLower("zh-TW") == "zh-tw";
    assert |ToLower("FR")| == 2 && ToLower("FR")[0] == 'f';
    assert |ToLower("en-US")| == 5;
  }
}
