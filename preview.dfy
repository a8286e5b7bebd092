/** The preview component put together: from one snapshot of the listing
    store and the locale, the decisions it makes when it is set up, and the
    one it makes when a video ends. */
module VideoPreview {

  import opened Wrappers
  import opened Media
  import Playlist
  import Sidecar
  import PlayerLang

  /** An external native player reachable through a URL scheme. */
  datatype ExternalPlayer = ExternalPlayer(icon: string, name: string, scheme: string)

  /** The video preview's fixed table of external players. */
  const Players: seq<ExternalPlayer> := [
    ExternalPlayer("nplayer", "nPlayer", "nplayer-$durl"),
    ExternalPlayer("oplayer", "OPlayer", "oplayer://$durl"),
    ExternalPlayer("iina", "IINA", "iina://weblink?url=$durl"),
    ExternalPlayer("movist", "MovistPro", "movistpro:$mdurl"),
    ExternalPlayer("vlc", "VLC", "vlc://$durl"),
    ExternalPlayer("infuse", "Infuse", "infuse://x-callback-url/play?url=$durl")
  ]

  /** Six players with distinct names, each scheme ending in the link token
      it is filled with: `$mdurl` for MovistPro, `$durl` for the others. */
  lemma PlayersTable()
    ensures |Players| == 6
    ensures forall i, j :: 0 <= i < j < |Players| ==> Players[i].name != Players[j].name
    ensures forall i :: 0 <= i < |Players| ==>
      Sidecar.EndsWith(Players[i].scheme, if Players[i].name == "MovistPro" then "$mdurl" else "$durl")
  {
  }

  /** What the component reads from the stores: the open object, the
      listing, the related files and the current locale. */
  datatype Snapshot = Snapshot(obj: Obj, objs: seq<Obj>, related: seq<Obj>, locale: string)

  /** The decisions taken when the component is created. */
  datatype Setup = Setup(
    videos: seq<Obj>,
    options: seq<string>,
    subtitle: Option<Obj>,
    danmu: Option<Obj>,
    lang: string)

  /** Building the component: the playlist, the selector's options, the two
      sidecar tracks and the player language, each from the snapshot. */
  function Mount(s: Snapshot): (m: Setup)
    ensures |m.videos| > 0 && |m.options| == |m.videos|
    ensures forall i :: 0 <= i < |m.videos| ==> m.options[i] == m.videos[i].name
    ensures m.lang in PlayerLang.Supported
    ensures (s.obj in s.objs && Playlist.IsVideo(s.obj)) || !Playlist.HasVideo(s.objs) ==> s.obj.name in m.options
    ensures m.subtitle.Some? && m.danmu.Some? ==> m.subtitle.value.name != m.danmu.value.name
  {
    var videos := Playlist.Playlist(s.objs, s.obj);
    var subtitle := Sidecar.Subtitle(s.related);
    var danmu := Sidecar.Danmu(s.related);
    var options := Playlist.SelectorOptions(videos);
    assert s.obj in s.objs && Playlist.IsVideo(s.obj) ==> s.obj in videos by {
      if s.obj in s.objs && Playlist.IsVideo(s.obj) {
        Playlist.OpenVideoIsInPlaylist(s.objs, s.obj);
      }
    }
    assert s.obj in videos ==> s.obj.name in options by {
      if s.obj in videos {
        var i :| 0 <= i < |videos| && videos[i] == s.obj;
        assert options[i] == s.obj.name;
      }
    }
    assert subtitle.Some? && danmu.Some? ==> subtitle.value.name != danmu.value.name by {
      if subtitle.Some? && danmu.Some? {
        Sidecar.SidecarNamesDiffer(s.related);
      }
    }
    Setup(videos, options, subtitle, danmu, PlayerLang.Lang(s.locale))
  }

  /** The "video:ended" callback: the playlist is the one built at mount,
      the open object's name is read when the event fires. Whatever it asks
      for is offered by the selector and, unless the listing has no video,
      is a VIDEO entry of the listing. */
  function VideoEnded(s: Snapshot, currentName: string): (r: Option<string>)
    ensures r.Some? ==> r.value in Mount(s).options
    ensures r.Some? && Playlist.HasVideo(s.objs) ==>
      exists i :: 0 <= i < |s.objs| && Playlist.IsVideo(s.objs[i]) && s.objs[i].name == r.value
    ensures !Playlist.HasVideo(s.objs) && currentName == s.obj.name ==> r.None?
  {
    var videos := Mount(s).videos;
    var r := Playlist.OnEnded(videos, currentName);
    assert r.Some? ==> r.value in Mount(s).options by {
      if r.Some? {
        Playlist.EndedTargetIsOption(videos, currentName, r.value);
      }
    }
    assert r.Some? && Playlist.HasVideo(s.objs) ==>
      exists i :: 0 <= i < |s.objs| && Playlist.IsVideo(s.objs[i]) && s.objs[i].name == r.value by {
      if r.Some? && Playlist.HasVideo(s.objs) {
        Playlist.EndedTargetIsListedVideo(s.objs, s.obj, currentName, r.value);
      }
    }
    assert !Playlist.HasVideo(s.objs) && currentName == s.obj.name ==> r.None? by {
      if !Playlist.HasVideo(s.objs) && currentName == s.obj.name {
        Playlist.FallbackNeverNavigates(s.objs, s.obj);
      }
    }
    r
  }
}
