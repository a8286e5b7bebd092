/** The preview's playlist: which listed objects it holds, which one the
    player moves to when a video ends, and what the selector offers. */
module Playlist {

  import opened Wrappers
  import opened Media
  import ArrayFind

  predicate IsVideo(o: Obj)
  {
    o.kind == Video
  }

  /** The listing holds at least one VIDEO entry. */
  predicate HasVideo(objs: seq<Obj>)
  {
    exists i :: 0 <= i < |objs| && IsVideo(objs[i])
  }

  predicate AllVideos(s: seq<Obj>)
  {
    forall i :: 0 <= i < |s| ==> IsVideo(s[i])
  }

  /** Every VIDEO entry occurs as often in `s` as in `objs`. */
  ghost predicate SameVideoCounts(s: seq<Obj>, objs: seq<Obj>)
  {
    forall o :: IsVideo(o) ==> multiset(s)[o] == multiset(objs)[o]
  }

  /** `s` is `t` with some entries deleted, the rest kept in their order. */
  predicate IsSubsequence(s: seq<Obj>, t: seq<Obj>)
    decreases |t|
  {
    if s == [] then true
    else if t == [] then false
    else (s[0] == t[0] && IsSubsequence(s[1..], t[1..])) || IsSubsequence(s, t[1..])
  }

  lemma {:induction false} SubsequenceCounts(s: seq<Obj>, t: seq<Obj>)
    requires IsSubsequence(s, t)
    ensures multiset(s) <= multiset(t)
    decreases |t|
  {
    if s != [] {
      assert t == [t[0]] + t[1..];
      if s[0] == t[0] && IsSubsequence(s[1..], t[1..]) {
        SubsequenceCounts(s[1..], t[1..]);
        assert s == [s[0]] + s[1..];
      } else {
        SubsequenceCounts(s, t[1..]);
      }
    }
  }

  /** `objs.filter(obj => obj.type === ObjType.VIDEO)`. */
  function VideosOf(objs: seq<Obj>): (r: seq<Obj>)
    ensures IsSubsequence(r, objs)
    ensures AllVideos(r)
    ensures SameVideoCounts(r, objs)
  {
    if objs == [] then []
    else
      assert objs == [objs[0]] + objs[1..];
      var rest := VideosOf(objs[1..]);
      if IsVideo(objs[0]) then
        assert ([objs[0]] + rest)[1..] == rest;
        [objs[0]] + rest
      else rest
  }

  /** The filter is empty exactly when the listing has no VIDEO entry. */
  lemma VideosOfEmpty(objs: seq<Obj>)
    ensures VideosOf(objs) == [] <==> !HasVideo(objs)
  {
  }

  /** The filter is the only subsequence of the listing that consists of
      VIDEO entries and keeps every one of them: "the VIDEO entries, in
      their original order" determines the playlist completely. */
  lemma {:induction false} VideosOfUnique(s: seq<Obj>, objs: seq<Obj>)
    requires IsSubsequence(s, objs) && AllVideos(s) && SameVideoCounts(s, objs)
    ensures s == VideosOf(objs)
    decreases |objs|
  {
    if objs == [] {
      assert s == [];
    } else {
      var x, t := objs[0], objs[1..];
      assert objs == [x] + t;
      if IsVideo(x) {
        assert multiset(objs)[x] == multiset(t)[x] + 1;
        assert s != [];
        if !(s[0] == x && IsSubsequence(s[1..], t)) {
          SubsequenceCounts(s, t);
          assert false;
        }
        assert s == [x] + s[1..];
        forall o | IsVideo(o) ensures multiset(s[1..])[o] == multiset(t)[o] {
          assert multiset(s)[o] == multiset([x])[o] + multiset(s[1..])[o];
        }
        VideosOfUnique(s[1..], t);
      } else {
        if s != [] {
          assert IsVideo(s[0]);
        }
        assert IsSubsequence(s, t);
        forall o | IsVideo(o) ensures multiset(s)[o] == multiset(t)[o] {
          assert multiset(objs)[o] == multiset([x])[o] + multiset(t)[o];
        }
        VideosOfUnique(s, t);
      }
    }
  }

  /** The playlist the video preview builds: the VIDEO entries of the listing,
      or the open object alone when there are none. */
  function Playlist(objs: seq<Obj>, current: Obj): (r: seq<Obj>)
    ensures |r| > 0
    ensures HasVideo(objs) ==> IsSubsequence(r, objs) && AllVideos(r) && SameVideoCounts(r, objs)
    ensures !HasVideo(objs) ==> r == [current]
  {
    VideosOfEmpty(objs);
    var videos := VideosOf(objs);
    if |videos| == 0 then [current] else videos
  }

  /** Any sequence with the three properties Playlist promises for a listing
      with videos is that playlist. */
  lemma PlaylistIsVideoFilter(objs: seq<Obj>, current: Obj, s: seq<Obj>)
    requires HasVideo(objs)
    requires IsSubsequence(s, objs) && AllVideos(s) && SameVideoCounts(s, objs)
    ensures Playlist(objs, current) == s
  {
    VideosOfUnique(s, objs);
    VideosOfEmpty(objs);
  }

  /** The open object, when it is a VIDEO entry of the listing, is in the
      playlist, so the "ended" lookup by name finds it. */
  lemma OpenVideoIsInPlaylist(objs: seq<Obj>, current: Obj)
    requires current in objs && IsVideo(current)
    ensures current in Playlist(objs, current)
  {
  }

  /** `i` is the first playlist position holding `name`. */
  predicate FirstNamed(videos: seq<Obj>, name: string, i: int)
  {
    0 <= i < |videos| && videos[i].name == name && forall j :: 0 <= j < i ==> videos[j].name != name
  }

  predicate NoneNamed(videos: seq<Obj>, name: string)
  {
    forall i :: 0 <= i < |videos| ==> videos[i].name != name
  }

  predicate DistinctNames(videos: seq<Obj>)
  {
    forall i, j :: 0 <= i < j < |videos| ==> videos[i].name != videos[j].name
  }

  /** The video preview's "video:ended" handler: find the first entry named
      like the open object and request the entry after it, if the found
      index is below the last one. findIndex's -1 for a missing name is
      below the last index of any non-empty playlist. */
  function OnEnded(videos: seq<Obj>, currentName: string): (r: Option<string>)
    ensures forall i :: FirstNamed(videos, currentName, i) ==>
      r == if i < |videos| - 1 then Some(videos[i + 1].name) else None
    ensures NoneNamed(videos, currentName) ==>
      r == if |videos| > 0 then Some(videos[0].name) else None
  {
    var index := ArrayFind.FindIndex(videos, (o: Obj) => o.name == currentName);
    assert forall i :: FirstNamed(videos, currentName, i) ==> i == index by {
      forall i | FirstNamed(videos, currentName, i) ensures i == index {
        assert ArrayFind.IsFirst(videos, (o: Obj) => o.name == currentName, i);
        ArrayFind.FirstIsUnique(videos, (o: Obj) => o.name == currentName, i, index);
      }
    }
    if index < |videos| - 1 then Some(videos[index + 1].name) else None
  }

  /** With distinct names, ending the video at position i requests position
      i + 1, and nothing after the last one: playback walks the playlist in
      order and stops at its end. */
  lemma EndedStepsThroughPlaylist(videos: seq<Obj>, i: int)
    requires DistinctNames(videos) && 0 <= i < |videos|
    ensures OnEnded(videos, videos[i].name) == if i < |videos| - 1 then Some(videos[i + 1].name) else None
  {
  }

  /** With duplicate names the first occurrence decides, whichever copy is
      open: ending a later copy at j requests the entry after the FIRST
      copy at i, not the entry after j. */
  lemma EndedUsesFirstOccurrence(videos: seq<Obj>, i: int, j: int)
    requires 0 <= i < j < |videos| && videos[i].name == videos[j].name
    requires FirstNamed(videos, videos[i].name, i)
    ensures OnEnded(videos, videos[j].name) == Some(videos[i + 1].name)
  {
  }

  /** A listing without VIDEO entries yields the one-entry playlist, and
      ending that video never requests navigation. */
  lemma FallbackNeverNavigates(objs: seq<Obj>, current: Obj)
    requires !HasVideo(objs)
    ensures Playlist(objs, current) == [current]
    ensures OnEnded(Playlist(objs, current), current.name) == None
  {
  }

  /** When no playlist entry carries the open object's name, the handler
      requests the first entry (findIndex gives -1, and -1 + 1 = 0); the
      playlist is never empty, so that entry exists. */
  lemma EndedWhenAbsentNavigatesToFirst(objs: seq<Obj>, current: Obj)
    requires NoneNamed(Playlist(objs, current), current.name)
    ensures HasVideo(objs)
    ensures OnEnded(Playlist(objs, current), current.name) == Some(Playlist(objs, current)[0].name)
  {
  }

  /** When the listing has videos, every navigation request the handler
      makes, whatever name it looks up, names a VIDEO entry of the listing. */
  lemma EndedTargetIsListedVideo(objs: seq<Obj>, current: Obj, currentName: string, target: string)
    requires HasVideo(objs)
    requires OnEnded(Playlist(objs, current), currentName) == Some(target)
    ensures exists i :: 0 <= i < |objs| && IsVideo(objs[i]) && objs[i].name == target
  {
  }

  /** The options of the video preview's selector: the playlist names, in playlist
      order. */
  function SelectorOptions(videos: seq<Obj>): (r: seq<string>)
    ensures |r| == |videos|
    ensures forall i :: 0 <= i < |videos| ==> r[i] == videos[i].name
  {
    seq(|videos|, i requires 0 <= i < |videos| => videos[i].name)
  }

  /** The track the handler moves to is always one the selector offers. */
  lemma EndedTargetIsOption(videos: seq<Obj>, currentName: string, target: string)
    requires OnEnded(videos, currentName) == Some(target)
    ensures target in SelectorOptions(videos)
  {
  }

  /** The first VIDEO entry, the second and a non-video between them: ending
      the first requests the second, ending the second requests nothing. */
  lemma EndedExamples()
    ensures var objs := [Obj("a.mp4", Video), Obj("b.txt", Other(5)), Obj("c.mkv", Video)];
      && Playlist(objs, objs[0]) == [objs[0], objs[2]]
      && OnEnded(Playlist(objs, objs[0]), "a.mp4") == Some("c.mkv")
      && OnEnded(Playlist(objs, objs[2]), "c.mkv") == None
  {
    var objs := [Obj("a.mp4", Video), Obj("b.txt", Other(5)), Obj("c.mkv", Video)];
    assert IsVideo(objs[0]);
    var s := [objs[0], objs[2]];
    assert s[1..] == [objs[2]];
    assert objs[1..] == [objs[1], objs[2]];
    assert objs[2..] == [objs[2]];
    assert IsSubsequence([objs[2]], objs[2..]);
    assert IsSubsequence([objs[2]], objs[1..]);
    assert IsSubsequence(s, objs);
    PlaylistIsVideoFilter(objs, objs[0], s);
    PlaylistIsVideoFilter(objs, objs[2], s);
    assert FirstNamed(s, "a.mp4", 0);
    assert FirstNamed(s, "c.mkv", 1);
  }
}
