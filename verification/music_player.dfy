/** The floating music player (`myblog_app/src/components/ui/MusicPlayer.jsx`):
    the playlist cursor, the play/pause toggle, volume and mute, and the
    `m:ss` clock. React state and the `<audio>` element are one value here;
    the element is `None` while it is not mounted (the player is hidden). */
module MusicPlayer {
  import opened Wrappers
  import opened Text

  datatype Song = Song(title: string, artist: string, src: string)

  /** What the player shows when the index points at no song. */
  const Placeholder: Song := Song("无歌曲", "", "")

  /** The bundled playlist (`myblog_app/src/data/playlist.js`). */
  const Playlist: seq<Song> := [
    Song("エンディングは突然やってくる", "樋口秀樹 / 柳英一朗 / 西坂恭平",
         "/music/樋口秀樹 柳英一朗 西坂恭平 - エンディングは突然やってくる.mp3"),
    Song("創作彼女の恋愛公式", "樋口秀樹 / 柳英一朗 / 西坂恭平",
         "/music/樋口秀樹 柳英一朗 西坂恭平 - 創作彼女の恋愛公式.mp3"),
    Song("奇跡なんか、いらない。 -piano ver-", "樋口秀樹 / 柳英一朗 / 西坂恭平",
         "/music/樋口秀樹 柳英一朗 西坂恭平 - 奇跡なんか、いらない。 -piano ver-.mp3")]

  /** `playlist[currentIndex] || placeholder`: a song object is always
      truthy, so only an index outside the list falls back. */
  function CurrentSong(playlist: seq<Song>, index: int): (s: Song)
    ensures 0 <= index < |playlist| ==> s == playlist[index]
    ensures !(0 <= index < |playlist|) ==> s == Placeholder
  {
    if 0 <= index < |playlist| then playlist[index] else Placeholder
  }

  /** `changeSong(direction)` on a playlist of `n` songs: step, then wrap a
      step below zero to the last song and a step past the end to the first.
      On an empty list there is no valid index to land on: the result is
      `-1` going back from `0` and `0` otherwise. */
  function ChangeSong(index: int, direction: int, n: nat): (r: int)
    ensures 0 <= index + direction < n ==> r == index + direction
    ensures index + direction < 0 ==> r == n - 1
    ensures n <= index + direction ==> r == 0
    ensures n > 0 ==> 0 <= r < n
    ensures n == 0 ==> r == -1 || r == 0
  {
    var stepped := index + direction;
    var low := if stepped < 0 then n - 1 else stepped;
    if low >= n then 0 else low
  }

  /** A positive multiple of `n` is at least `n`. */
  lemma {:induction false} MulAtLeast(n: int, d: int)
    requires n > 0 && d >= 1
    ensures n * d >= n
    decreases d
  {
    if d > 1 {
      MulAtLeast(n, d - 1);
      assert n * d == n * (d - 1) + n;
    }
  }

  /** The division of `x` by `n` is the one pair `(q, r)` with `0 <= r < n`. */
  lemma ModUnique(x: int, n: int, q: int, r: int)
    requires n > 0 && 0 <= r < n && x == n * q + r
    ensures x % n == r
  {
    var q0, r0 := x / n, x % n;
    assert x == n * q0 + r0;
    if q > q0 {
      MulAtLeast(n, q - q0);
    } else if q < q0 {
      MulAtLeast(n, q0 - q);
    }
  }

  /** Adding one modulo `n` wraps the last residue to zero. */
  lemma ModNext(a: int, n: int)
    requires n > 0
    ensures (a + 1) % n == if a % n + 1 < n then a % n + 1 else 0
  {
    var q, r := a / n, a % n;
    assert a == n * q + r;
    if r + 1 < n {
      ModUnique(a + 1, n, q, r + 1);
    } else {
      assert a + 1 == n * q + n;
      assert n * q + n == n * (q + 1);
      ModUnique(a + 1, n, q + 1, 0);
    }
  }

  /** One step either way is addition modulo the playlist length. */
  lemma ChangeSongIsModular(index: int, direction: int, n: nat)
    requires n > 0 && 0 <= index < n && (direction == 1 || direction == -1)
    ensures ChangeSong(index, direction, n) == (index + direction) % n
  {
    var x := index + direction;
    if x < 0 {
      ModUnique(x, n, -1, n - 1);
    } else if x >= n {
      ModUnique(x, n, 1, 0);
    } else {
      ModUnique(x, n, 0, x);
    }
  }

  /** Going forward and then back returns to the same song, and so does
      going back and then forward. */
  lemma NextThenPrev(index: int, n: nat)
    requires 0 <= index < n
    ensures ChangeSong(ChangeSong(index, 1, n), -1, n) == index
    ensures ChangeSong(ChangeSong(index, -1, n), 1, n) == index
  {
  }

  /** `k` presses of "next" from `index`. On a non-empty list, starting
      from a song, the cursor is always on a song. */
  function Forward(index: int, k: nat, n: nat): (r: int)
    ensures n > 0 && 0 <= index < n ==> 0 <= r < n
    decreases k
  {
    if k == 0 then index else ChangeSong(Forward(index, k - 1, n), 1, n)
  }

  /** `k` steps forward land on `(index + k) mod n`: the playlist is a cycle
      that visits every song before repeating. */
  lemma {:induction false} ForwardIsModular(index: int, k: nat, n: nat)
    requires 0 <= index < n
    ensures Forward(index, k, n) == (index + k) % n
    decreases k
  {
    if k == 0 {
      ModUnique(index, n, 0, index);
    } else {
      ForwardIsModular(index, k - 1, n);
      ModNext(index + k - 1, n);
    }
  }

  /** The `<audio>` element's own settings. */
  datatype Audio = Audio(volume: real, muted: bool)

  /** The player's state: the React state variables, plus the element when
      mounted. `time` is `currentTime` in seconds. */
  datatype Player = Player(index: int, time: real, playing: bool, volume: real, muted: bool, audio: Option<Audio>)

  /** The state on first render: first song, paused, volume 0.7, not muted.
      The effect that mounts the element copies the volume into it. */
  function Initial(mounted: bool): (p: Player)
    ensures p.index == 0 && p.time == 0.0 && !p.playing && p.volume == 0.7 && !p.muted
    ensures p.audio.Some? <==> mounted
    ensures Synced(p)
  {
    Player(0, 0.0, false, 0.7, false, if mounted then Some(Audio(0.7, false)) else None)
  }

  /** The element, when mounted, plays at the volume and mute the controls
      show. */
  predicate Synced(p: Player) {
    p.audio.Some? ==> p.audio.value.volume == p.volume && p.audio.value.muted == p.muted
  }

  /** Prev/next buttons and the `ended` event: move the cursor and restart
      the clock; nothing else changes. */
  function Change(p: Player, direction: int, n: nat): (r: Player)
    ensures r.index == ChangeSong(p.index, direction, n) && r.time == 0.0
    ensures r.(index := p.index, time := p.time) == p
  {
    p.(index := ChangeSong(p.index, direction, n), time := 0.0)
  }

  /** What `togglePlay` asks of the element. */
  datatype PlayAction = NoOp | Pause | Play

  /** `togglePlay`: nothing without a mounted element or without a source;
      otherwise pause when playing and play when paused. */
  function TogglePlay(playlist: seq<Song>, p: Player): (a: PlayAction)
    ensures a.NoOp? <==> p.audio.None? || CurrentSong(playlist, p.index).src == ""
    ensures a.Pause? ==> p.playing
    ensures a.Play? ==> !p.playing
  {
    if p.audio.None? || CurrentSong(playlist, p.index).src == "" then NoOp
    else if p.playing then Pause
    else Play
  }

  /** The element's `play` and `pause` events, the only writers of
      `isPlaying`. A `play()` the browser rejects fires no event. */
  function Perform(p: Player, a: PlayAction): (r: Player)
    ensures a.Pause? ==> r == p.(playing := false)
    ensures a.Play? ==> r == p.(playing := true)
    ensures a.NoOp? ==> r == p
  {
    match a
    case NoOp => p
    case Pause => p.(playing := false)
    case Play => p.(playing := true)
  }

  /** Pressing the button flips playing exactly when there is a mounted
      element and a song with a source, and pressing it twice restores the
      state. */
  lemma TogglePlayFlips(playlist: seq<Song>, p: Player)
    ensures var r := Perform(p, TogglePlay(playlist, p));
      && (r.playing != p.playing <==> p.audio.Some? && CurrentSong(playlist, p.index).src != "")
      && Perform(r, TogglePlay(playlist, r)) == p
  {
  }

  /** With no songs the cursor stays at `-1` or `0`, the placeholder is
      shown, and the play button does nothing. */
  lemma EmptyPlaylist(p: Player, direction: int)
    ensures var r := Change(p, direction, 0);
      && (r.index == -1 || r.index == 0)
      && CurrentSong([], r.index) == Placeholder
      && TogglePlay([], r) == NoOp
  {
  }

  /** On the bundled list, "previous" from the first song wraps to the third
      and "next" from the third wraps to the first. */
  lemma BundledPlaylistWraps(p: Player)
    requires p.index == 0
    ensures var back := Change(p, -1, |Playlist|);
      && back.index == 2
      && CurrentSong(Playlist, back.index).title == "奇跡なんか、いらない。 -piano ver-"
      && Change(back, 1, |Playlist|).index == 0
  {
  }

  /** `handleVolumeChange` as written: the state and the element take the new
      volume, and a positive volume clears `isMuted`, but the element's own
      `muted` flag is left as it was. */
  function HandleVolumeChangeAsWritten(p: Player, v: real): (r: Player)
    ensures r.volume == v
    ensures r.muted == (p.muted && v <= 0.0)
    ensures r.audio.Some? <==> p.audio.Some?
    ensures r.audio.Some? ==> r.audio.value == p.audio.value.(volume := v)
    ensures r.index == p.index && r.time == p.time && r.playing == p.playing
  {
    var audio := if p.audio.Some? then Some(p.audio.value.(volume := v)) else None;
    p.(volume := v, audio := audio, muted := if v > 0.0 then false else p.muted)
  }

  /** Dragging the slider while muted: the icon shows sound on, the element
      stays muted. */
  lemma VolumeChangeLeavesElementMuted()
    ensures var p := Initial(true).(muted := true, audio := Some(Audio(0.7, true)));
      var r := HandleVolumeChangeAsWritten(p, 0.5);
      && Synced(p) && !r.muted && r.audio.value.muted && !Synced(r)
  {
  }

  /** `handleVolumeChange` with the evident intent: a positive volume
      unmutes the element as well as the controls. */
  function HandleVolumeChange(p: Player, v: real): (r: Player)
    ensures r.volume == v
    ensures r.muted == (p.muted && v <= 0.0)
    ensures r.audio.Some? <==> p.audio.Some?
    ensures Synced(p) ==> Synced(r)
    ensures r.index == p.index && r.time == p.time && r.playing == p.playing
  {
    var audio := if p.audio.Some? then
      Some(Audio(v, if v > 0.0 then false else p.audio.value.muted))
    else None;
    p.(volume := v, audio := audio, muted := if v > 0.0 then false else p.muted)
  }

  /** `toggleMute`: with the element mounted, flip the controls' mute and set
      the element to the flipped value; without it, nothing happens. */
  function ToggleMute(p: Player): (r: Player)
    ensures p.audio.None? ==> r == p
    ensures p.audio.Some? ==> r.muted == !p.muted && r.audio == Some(p.audio.value.(muted := !p.muted))
    ensures Synced(p) ==> Synced(r)
    ensures r.(muted := p.muted, audio := p.audio) == p
  {
    if p.audio.Some? then p.(muted := !p.muted, audio := Some(p.audio.value.(muted := !p.muted)))
    else p
  }

  /** Muting twice in a row is no change at all, from any state that was in
      step with its element. */
  lemma ToggleMuteTwice(p: Player)
    requires Synced(p)
    ensures ToggleMute(ToggleMute(p)) == p
  {
  }

  /** The end of a track as written. The browser fires `pause` before
      `ended` when a playing track runs out, so `isPlaying` is already false
      when `changeSong(1)` runs; the auto-play effect then loads the next
      song and, seeing `isPlaying` false, does not play it. */
  function EndedAsWritten(p: Player, n: nat): (r: Player)
    ensures !r.playing
    ensures r.index == ChangeSong(p.index, 1, n) && r.time == 0.0
    ensures r.(index := p.index, time := p.time, playing := p.playing) == p
  {
    Change(Perform(p, if p.playing then Pause else NoOp), 1, n)
  }

  /** The next button while playing keeps playing (`load()` sets the
      element's `paused` without firing `pause`, and the auto-play effect
      calls `play()`), but a track that ends while playing leaves the player
      paused on the next song. */
  lemma EndedStopsUnlikeNext(p: Player, n: nat)
    requires p.playing
    ensures Change(p, 1, n).playing
    ensures !EndedAsWritten(p, n).playing
    ensures EndedAsWritten(p, n).index == Change(p, 1, n).index
  {
  }

  /** A user action on the expanded player. `Ended` is a track running out. */
  datatype Action = Next | Prev | Ended | TogglePlayback | SetVolume(v: real) | Mute

  /** The state after one action on a list of `playlist` songs, with the
      corrected volume handler and with the end of a track advancing as the
      next button does, so that playback carries on into the next song.
      The element stays in step with the controls, the cursor stays on a
      song, and only the play button starts or stops playback. */
  function Step(playlist: seq<Song>, p: Player, a: Action): (r: Player)
    ensures Synced(p) ==> Synced(r)
    ensures 0 <= p.index < |playlist| ==> 0 <= r.index < |playlist|
    ensures r.playing != p.playing ==> a.TogglePlayback?
  {
    match a
    case Next => Change(p, 1, |playlist|)
    case Prev => Change(p, -1, |playlist|)
    case Ended => Change(p, 1, |playlist|)
    case TogglePlayback => Perform(p, TogglePlay(playlist, p))
    case SetVolume(v) => HandleVolumeChange(p, v)
    case Mute => ToggleMute(p)
  }

  /** With the correction, the end of a track is the next button: the cursor
      advances and a playing player keeps playing. */
  lemma EndedContinuesLikeNext(playlist: seq<Song>, p: Player)
    ensures Step(playlist, p, Ended) == Step(playlist, p, Next)
    ensures Step(playlist, p, Ended).playing == p.playing
  {
  }

  /** A sequence of actions, first to last. Playback starts or stops only
      when the play button is among them. */
  function Run(playlist: seq<Song>, p: Player, actions: seq<Action>): (r: Player)
    ensures (forall i :: 0 <= i < |actions| ==> !actions[i].TogglePlayback?) ==> r.playing == p.playing
    decreases |actions|
  {
    if actions == [] then p else Run(playlist, Step(playlist, p, actions[0]), actions[1..])
  }

  /** Hiding the player unmounts the `<audio>` element. Removing a playing
      element pauses it, and the listener still attached to it clears
      `isPlaying`. */
  function Hide(p: Player): (r: Player)
    ensures r.audio.None? && !r.playing
    ensures r.(audio := p.audio, playing := p.playing) == p
  {
    p.(audio := None, playing := false)
  }

  /** Reopening mounts a new element with the element defaults, volume 1
      and not muted. The effect that copies the volume into the element
      depends only on `volume` and `changeSong`, so it does not run again. */
  function Reopen(p: Player): (r: Player)
    ensures r.audio == Some(Audio(1.0, false))
    ensures r.(audio := p.audio) == p
  {
    p.(audio := Some(Audio(1.0, false)))
  }

  /** Hiding and reopening a player whose volume is not 1, or that is
      muted, leaves the element out of step with the controls; from the
      first render, it always does. */
  lemma HideReopenLosesSettings(p: Player)
    requires p.volume != 1.0 || p.muted
    ensures !Synced(Reopen(Hide(p)))
    ensures !Synced(Reopen(Hide(Initial(true))))
  {
  }

  /** Under any sequence of `Action`s, the element plays at the volume and
      mute the controls show, and on a non-empty list the cursor stays on a
      song. */
  lemma {:induction false} RunKeepsSynced(playlist: seq<Song>, p: Player, actions: seq<Action>)
    requires Synced(p) && 0 <= p.index < |playlist|
    ensures var r := Run(playlist, p, actions);
      Synced(r) && 0 <= r.index < |playlist|
    decreases |actions|
  {
    if actions != [] {
      RunKeepsSynced(playlist, Step(playlist, p, actions[0]), actions[1..]);
    }
  }

  /** `formatTime`'s argument: `NaN` (no metadata yet) or a non-negative
      number of seconds, already floored. */
  datatype Seconds = NotANumber | Whole(s: nat)

  /** The two-digit seconds field. */
  function SecondsField(s: nat): (r: string)
    ensures |r| == 2 && AllDigits(r)
  {
    var d := NatToString(s % 60);
    assert |d| <= 2;
    var r := PadStart(d, 2, '0');
    assert forall i :: 0 <= i < |r| ==> r[i] == '0' || IsDigit(r[i]);
    r
  }

  /** `formatTime`: `'0:00'` for `NaN`, else minutes, a colon and the
      seconds padded to two digits. */
  function FormatTime(t: Seconds): (r: string)
    ensures t.NotANumber? ==> r == "0:00"
    ensures |r| >= 4 && r[|r| - 3] == ':'
    ensures AllDigits(r[..|r| - 3]) && AllDigits(r[|r| - 2..])
  {
    match t
    case NotANumber => "0:00"
    case Whole(s) =>
      var m := NatToString(s / 60);
      var f := SecondsField(s);
      var r := m + ":" + f;
      assert r[..|r| - 3] == m && r[|r| - 2..] == f;
      r
  }

  /** Reads a clock face `m:ss` back into seconds. */
  function ParseTime(r: string): (s: Option<nat>)
    ensures s.Some? ==> |r| >= 4 && r[|r| - 3] == ':'
  {
    if |r| >= 4 && r[|r| - 3] == ':' then
      match (ParseNat(r[..|r| - 3]), ParseNat(r[|r| - 2..]))
      case (Some(m), Some(sec)) => if sec < 60 then Some(m * 60 + sec) else None
      case _ => None
    else None
  }

  /** The seconds field reads back as the seconds within the minute. */
  lemma SecondsFieldParses(s: nat)
    ensures ParseNat(SecondsField(s)) == Some(s % 60)
  {
    var k := s % 60;
    if k < 10 {
      var f := SecondsField(s);
      assert f == ['0', DigitChar(k)];
      assert f[..1] == ['0'] && ['0'][..0] == [];
      assert DigitsValue(f) == DigitsValue(['0']) * 10 + k;
    } else {
      ParseNatToString(k);
    }
  }

  /** The face of `NaN`, `0:00`, reads back as zero. */
  lemma ZeroFaceParses()
    ensures ParseTime("0:00") == Some(0)
  {
    var r := "0:00";
    assert r[..|r| - 3] == "0" && r[|r| - 2..] == "00";
    assert "00"[..1] == "0" && "0"[..0] == [];
    assert DigitsValue("0") == 0;
    assert DigitsValue("00") == 0;
  }

  /** Where a face's two fields sit. */
  lemma FaceFields(m: string, f: string)
    requires |m| >= 1 && |f| == 2
    ensures var r := m + ":" + f;
      |r| >= 4 && r[|r| - 3] == ':' && r[..|r| - 3] == m && r[|r| - 2..] == f
  {
  }

  /** A whole number of seconds reads back from its face. */
  lemma WholeFaceParses(s: nat)
    ensures ParseTime(FormatTime(Whole(s))) == Some(s)
  {
    var m := NatToString(s / 60);
    var f := SecondsField(s);
    assert FormatTime(Whole(s)) == m + ":" + f;
    FaceFields(m, f);
    ParseNatToString(s / 60);
    SecondsFieldParses(s);
    assert (s / 60) * 60 + s % 60 == s;
  }

  /** Every clock face reads back as the time it shows: no two whole-second
      times share a face, and `NaN` shows the face of zero. */
  lemma FormatTimeRoundTrip(t: Seconds)
    ensures ParseTime(FormatTime(t)) == Some(if t.Whole? then t.s else 0)
  {
    if t.Whole? {
      WholeFaceParses(t.s);
    } else {
      ZeroFaceParses();
    }
  }
}
