/** The video preview's sidecar tracks: the subtitle file and the overlay-comment
    (danmaku) file chosen among the files related to the open video. */
module Sidecar {

  import opened Wrappers
  import opened Media
  import ArrayFind

  const SubtitleExtensions: seq<string> := [".srt", ".ass", ".vtt"]
  const DanmuExtensions: seq<string> := [".xml"]

  /** `String.prototype.endsWith`: case-sensitive suffix comparison. */
  predicate EndsWith(s: string, suffix: string)
    ensures EndsWith(s, suffix) <==> exists front: string :: front + suffix == s
  {
    if |suffix| <= |s| && s[|s| - |suffix|..] == suffix then
      assert s[..|s| - |suffix|] + suffix == s;
      true
    else
      assert forall front: string :: front + suffix == s ==> s[|front|..] == suffix;
      false
  }

  /** The name ends with one of the extensions. */
  predicate HasExtension(name: string, exts: seq<string>)
  {
    exists k :: 0 <= k < |exts| && EndsWith(name, exts[k])
  }

  /** The `find` predicate's loop: try each extension in turn and answer
      true at the first suffix that matches, false when none does. */
  method MatchesExtension(name: string, exts: seq<string>) returns (found: bool)
    ensures found == HasExtension(name, exts)
  {
    for k := 0 to |exts|
      invariant forall j :: 0 <= j < k ==> !EndsWith(name, exts[j])
    {
      if EndsWith(name, exts[k]) {
        return true;
      }
    }
    return false;
  }

  /** `i` is the first related file whose name has one of the extensions. */
  predicate FirstWithExtensionAt(related: seq<Obj>, exts: seq<string>, i: int)
  {
    0 <= i < |related| && HasExtension(related[i].name, exts)
    && forall j :: 0 <= j < i ==> !HasExtension(related[j].name, exts)
  }

  /** `related.find(obj => <name has one of exts>)`. */
  function FirstWithExtension(related: seq<Obj>, exts: seq<string>): (r: Option<Obj>)
    ensures r.None? <==> forall i :: 0 <= i < |related| ==> !HasExtension(related[i].name, exts)
    ensures r.Some? ==> HasExtension(r.value.name, exts)
    ensures forall i :: FirstWithExtensionAt(related, exts, i) ==> r == Some(related[i])
  {
    var matches := (o: Obj) => HasExtension(o.name, exts);
    assert forall i :: FirstWithExtensionAt(related, exts, i) ==> ArrayFind.IsFirst(related, matches, i);
    ArrayFind.Find(related, matches)
  }

  /** The subtitle track: the first related file ending in .srt, .ass or .vtt. */
  function Subtitle(related: seq<Obj>): (r: Option<Obj>)
    ensures r.None? <==> forall i :: 0 <= i < |related| ==> !HasExtension(related[i].name, SubtitleExtensions)
    ensures r.Some? ==> HasExtension(r.value.name, SubtitleExtensions)
    ensures forall i :: FirstWithExtensionAt(related, SubtitleExtensions, i) ==> r == Some(related[i])
  {
    FirstWithExtension(related, SubtitleExtensions)
  }

  /** The danmaku track: the first related file ending in .xml. */
  function Danmu(related: seq<Obj>): (r: Option<Obj>)
    ensures r.None? <==> forall i :: 0 <= i < |related| ==> !HasExtension(related[i].name, DanmuExtensions)
    ensures r.Some? ==> HasExtension(r.value.name, DanmuExtensions)
    ensures forall i :: FirstWithExtensionAt(related, DanmuExtensions, i) ==> r == Some(related[i])
  {
    FirstWithExtension(related, DanmuExtensions)
  }

  /** A name with a subtitle extension ends in 't' or 's', one with the
      danmaku extension in 'l': no name has both. */
  lemma ExtensionsAreDisjoint(name: string)
    ensures !(HasExtension(name, SubtitleExtensions) && HasExtension(name, DanmuExtensions))
  {
  }

  /** The two choices never pick the same file name. */
  lemma SidecarNamesDiffer(related: seq<Obj>)
    ensures Subtitle(related).Some? && Danmu(related).Some? ==>
      Subtitle(related).value.name != Danmu(related).value.name
  {
    var subtitle, danmu := FirstWithExtension(related, SubtitleExtensions), FirstWithExtension(related, DanmuExtensions);
    if subtitle.Some? && danmu.Some? {
      ExtensionsAreDisjoint(subtitle.value.name);
    }
  }

  /** The choice is made by `find`: a file without the extensions anywhere
      in the list does not change it. */
  lemma {:induction false} IgnoresNonMatching(a: seq<Obj>, x: Obj, b: seq<Obj>, exts: seq<string>)
    requires !HasExtension(x.name, exts)
    ensures FirstWithExtension(a + [x] + b, exts) == FirstWithExtension(a + b, exts)
  {
    var matches := (o: Obj) => HasExtension(o.name, exts);
    assert a + [x] + b == a + ([x] + b);
    ArrayFind.FindAppend(a, [x] + b, matches);
    ArrayFind.FindAppend([x], b, matches);
    ArrayFind.FindAppend(a, b, matches);
  }

  /** The danmaku choice is independent of the subtitle files present. */
  lemma DanmuIgnoresSubtitleFiles(a: seq<Obj>, x: Obj, b: seq<Obj>)
    requires HasExtension(x.name, SubtitleExtensions)
    ensures Danmu(a + [x] + b) == Danmu(a + b)
  {
    ExtensionsAreDisjoint(x.name);
    IgnoresNonMatching(a, x, b, DanmuExtensions);
  }

  /** The subtitle choice is independent of the danmaku files present. */
  lemma SubtitleIgnoresDanmuFiles(a: seq<Obj>, x: Obj, b: seq<Obj>)
    requires HasExtension(x.name, DanmuExtensions)
    ensures Subtitle(a + [x] + b) == Subtitle(a + b)
  {
    ExtensionsAreDisjoint(x.name);
    IgnoresNonMatching(a, x, b, SubtitleExtensions);
  }

  /** ["a.srt", "b.ass", "c.xml"] gives subtitle a.srt (the first of two
      subtitle files) and danmaku c.xml. */
  lemma FirstMatchExample()
    ensures var r := [Obj("a.srt", Other(0)), Obj("b.ass", Other(0)), Obj("c.xml", Other(0))];
      Subtitle(r) == Some(r[0]) && Danmu(r) == Some(r[2])
  {
    var r := [Obj("a.srt", Other(0)), Obj("b.ass", Other(0)), Obj("c.xml", Other(0))];
    assert EndsWith("a.srt", SubtitleExtensions[0]);
    assert FirstWithExtensionAt(r, SubtitleExtensions, 0);
    assert "a.srt"[1..] != ".xml" && "b.ass"[1..] != ".xml";
    assert EndsWith("c.xml", DanmuExtensions[0]);
    assert FirstWithExtensionAt(r, DanmuExtensions, 2);
  }

  /** ["notes.txt"] gives neither track. */
  lemma NoMatchExample()
    ensures Subtitle([Obj("notes.txt", Other(0))]).None? && Danmu([Obj("notes.txt", Other(0))]).None?
  {
  }

  /** The comparison is case-sensitive: "movie.SRT" is no subtitle. */
  lemma CaseSensitiveExample()
    ensures Subtitle([Obj("movie.SRT", Other(0))]).None?
  {
  }
}
