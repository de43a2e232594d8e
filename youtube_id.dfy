/** The YouTube video-id pattern shared by the video repair script and the
    layout route:

      (?:https?://)?(?:www\.)?(?:m\.)?(?:youtube\.com|youtu\.be)/(?:watch\?v=|embed/|v/|)([\w-]{11})(?:\S+)?

    The pattern is not anchored, so `String.prototype.match` tries every
    start position from left to right, and at each position the
    alternatives in the order a backtracking engine tries them.  The model
    follows that order exactly: `Or(a, b)` takes `a` when it matches.  The
    trailing `(?:\S+)?` always matches and captures nothing, so it does not
    affect the captured id. */
module YouTubeId {
  import opened Wrappers
  import opened Json

  /** `[\w-]`: letters, digits, underscore and hyphen. */
  predicate IsIdChar(c: char) {
    ('A' <= c <= 'Z') || ('a' <= c <= 'z') || ('0' <= c <= '9') || c == '_' || c == '-'
  }

  predicate IsVideoId(id: string) {
    |id| == 11 && forall k :: 0 <= k < |id| ==> IsIdChar(id[k])
  }

  function Or(a: Option<string>, b: Option<string>): Option<string> {
    if a.Some? then a else b
  }

  /** `([\w-]{11})` at position `p`. */
  function IdAt(s: string, p: nat): (r: Option<string>)
    ensures r.Some? <==> p + 11 <= |s| && IsVideoId(s[p..p + 11])
    ensures r.Some? ==> r.value == s[p..p + 11]
  {
    if p + 11 <= |s| && IsVideoId(s[p..p + 11]) then Some(s[p..p + 11]) else None
  }

  function After(s: string, p: nat, lit: string): (r: Option<string>)
  {
    if HasAt(s, p, lit) then IdAt(s, p + |lit|) else None
  }

  /** `(?:watch\?v=|embed/|v/|)([\w-]{11})` */
  function AfterSlash(s: string, p: nat): Option<string> {
    Or(After(s, p, "watch?v="), Or(After(s, p, "embed/"), Or(After(s, p, "v/"), IdAt(s, p))))
  }

  /** `(?:youtube\.com|youtu\.be)/` */
  function AtHost(s: string, p: nat): Option<string> {
    if HasAt(s, p, "youtube.com/") then AfterSlash(s, p + 12)
    else if HasAt(s, p, "youtu.be/") then AfterSlash(s, p + 9)
    else None
  }

  /** `(?:m\.)?` */
  function AfterWww(s: string, p: nat): Option<string> {
    Or(if HasAt(s, p, "m.") then AtHost(s, p + 2) else None, AtHost(s, p))
  }

  /** `(?:www\.)?` */
  function AfterProto(s: string, p: nat): Option<string> {
    Or(if HasAt(s, p, "www.") then AfterWww(s, p + 4) else None, AfterWww(s, p))
  }

  /** The whole pattern anchored at start position `p`. */
  function MatchAt(s: string, p: nat): Option<string> {
    Or(if HasAt(s, p, "https://") then AfterProto(s, p + 8) else None,
       Or(if HasAt(s, p, "http://") then AfterProto(s, p + 7) else None,
          AfterProto(s, p)))
  }

  /** Leftmost match at a start position `p` or later. */
  function ExtractFrom(s: string, p: nat): Option<string>
    decreases |s| + 1 - p
  {
    if p > |s| then None else Or(MatchAt(s, p), ExtractFrom(s, p + 1))
  }

  /** `s.match(pattern)?.[1]` on a string. */
  function Extract(s: string): Option<string> {
    ExtractFrom(s, 0)
  }

  // ---------------------------------------------------------------------
  // A declarative reference: the pattern matches somewhere iff a host
  // prefix is followed by an optional path prefix and then eleven id
  // characters.

  predicate PathThenId(s: string, a: nat) {
    (HasAt(s, a, "watch?v=") && IdAt(s, a + 8).Some?)
    || (HasAt(s, a, "embed/") && IdAt(s, a + 6).Some?)
    || (HasAt(s, a, "v/") && IdAt(s, a + 2).Some?)
    || IdAt(s, a).Some?
  }

  predicate HostThenId(s: string, i: nat) {
    (HasAt(s, i, "youtube.com/") && PathThenId(s, i + 12))
    || (HasAt(s, i, "youtu.be/") && PathThenId(s, i + 9))
  }

  ghost predicate MentionsVideo(s: string) {
    exists i: nat :: i <= |s| && HostThenId(s, i)
  }

  lemma AfterSlashSound(s: string, a: nat)
    requires AfterSlash(s, a).Some?
    ensures PathThenId(s, a) && IsVideoId(AfterSlash(s, a).value)
  {
  }

  /** Every result the matcher produces at a position is a video id that
      follows a host prefix at that position. */
  lemma AtHostSound(s: string, p: nat)
    requires AtHost(s, p).Some?
    ensures IsVideoId(AtHost(s, p).value)
    ensures HostThenId(s, p)
  {
    if HasAt(s, p, "youtube.com/") {
      AfterSlashSound(s, p + 12);
    } else {
      AfterSlashSound(s, p + 9);
    }
  }

  lemma AfterWwwSound(s: string, b: nat)
    requires AfterWww(s, b).Some?
    ensures IsVideoId(AfterWww(s, b).value)
    ensures HostThenId(s, b) || HostThenId(s, b + 2)
  {
    if HasAt(s, b, "m.") && AtHost(s, b + 2).Some? {
      AtHostSound(s, b + 2);
    } else {
      AtHostSound(s, b);
    }
  }

  lemma AfterProtoSound(s: string, a: nat) returns (c: nat)
    requires AfterProto(s, a).Some?
    ensures IsVideoId(AfterProto(s, a).value)
    ensures a <= c <= |s| && HostThenId(s, c)
  {
    if HasAt(s, a, "www.") && AfterWww(s, a + 4).Some? {
      AfterWwwSound(s, a + 4);
      c := if HostThenId(s, a + 4) then a + 4 else a + 6;
    } else {
      AfterWwwSound(s, a);
      c := if HostThenId(s, a) then a else a + 2;
    }
  }

  lemma MatchAtSound(s: string, p: nat)
    requires MatchAt(s, p).Some?
    ensures IsVideoId(MatchAt(s, p).value)
    ensures exists i: nat :: p <= i <= |s| && HostThenId(s, i)
  {
    var c;
    if HasAt(s, p, "https://") && AfterProto(s, p + 8).Some? {
      c := AfterProtoSound(s, p + 8);
    } else if HasAt(s, p, "http://") && AfterProto(s, p + 7).Some? {
      c := AfterProtoSound(s, p + 7);
    } else {
      c := AfterProtoSound(s, p);
    }
  }

  lemma {:induction false} ExtractFromSound(s: string, p: nat)
    requires ExtractFrom(s, p).Some?
    ensures IsVideoId(ExtractFrom(s, p).value)
    ensures exists i: nat :: p <= i <= |s| && HostThenId(s, i)
    decreases |s| + 1 - p
  {
    if MatchAt(s, p).Some? {
      MatchAtSound(s, p);
    } else {
      ExtractFromSound(s, p + 1);
    }
  }

  lemma AtHostComplete(s: string, i: nat)
    requires HostThenId(s, i)
    ensures MatchAt(s, i).Some?
  {
    if HasAt(s, i, "youtube.com/") {
      assert s[i + 5] == 'b';
      assert !HasAt(s, i, "youtu.be/");
    }
    assert AtHost(s, i).Some?;
    assert AfterWww(s, i).Some?;
    assert AfterProto(s, i).Some?;
  }

  lemma {:induction false} ExtractFromComplete(s: string, p: nat, i: nat)
    requires p <= i <= |s| && HostThenId(s, i)
    ensures ExtractFrom(s, p).Some?
    decreases i - p
  {
    if p == i {
      AtHostComplete(s, i);
    } else if MatchAt(s, p).None? {
      ExtractFromComplete(s, p + 1, i);
    }
  }

  /** The matcher finds an id iff the text mentions one, and what it finds is
      always eleven `[\w-]` characters. */
  lemma ExtractIff(s: string)
    ensures Extract(s).Some? <==> MentionsVideo(s)
    ensures Extract(s).Some? ==> IsVideoId(Extract(s).value)
  {
    if Extract(s).Some? {
      ExtractFromSound(s, 0);
    }
    if MentionsVideo(s) {
      var i: nat :| i <= |s| && HostThenId(s, i);
      ExtractFromComplete(s, 0, i);
    }
  }

  // ---------------------------------------------------------------------
  // The URLs the code base builds, and the ids extracted back from them.

  const WatchPrefix: string := "https://www.youtube.com/watch?v="
  const EmbedPrefix: string := "https://www.youtube.com/embed/"
  const EmbedSuffix: string := "?rel=0&modestbranding=1"

  function WatchUrl(id: string): string {
    WatchPrefix + id
  }

  function EmbedUrl(id: string): string {
    EmbedPrefix + id + EmbedSuffix
  }

  lemma AtHostNone(s: string, p: nat)
    requires p >= |s| || s[p] != 'y'
    ensures AtHost(s, p) == None
  {
    NotHasAt(s, p, "youtube.com/", 0);
    NotHasAt(s, p, "youtu.be/", 0);
  }

  lemma AfterWwwAt(s: string, p: nat)
    requires p >= |s| || s[p] != 'm'
    ensures AfterWww(s, p) == AtHost(s, p)
  {
    NotHasAt(s, p, "m.", 0);
  }

  lemma AfterProtoAt(s: string, p: nat)
    requires p >= |s| || s[p] != 'w'
    ensures AfterProto(s, p) == AfterWww(s, p)
  {
    NotHasAt(s, p, "www.", 0);
  }

  lemma StandardPrefixChars(s: string)
    requires |s| >= 24 && s[..24] == "https://www.youtube.com/"
    ensures HasAt(s, 12, "youtube.com/") && s[12] == 'y'
    ensures HasAt(s, 8, "www.") && s[8] == 'w'
    ensures HasAt(s, 0, "https://") && s[0] == 'h' && s[4] == 's'
  {
    var pre := "https://www.youtube.com/";
    assert s[12..24] == pre[12..24] == "youtube.com/";
    assert s[12] == pre[12] == 'y';
    assert s[8] == pre[8] == 'w';
    assert s[8..12] == pre[8..12] == "www.";
    assert s[0] == pre[0] == 'h';
    assert s[4] == pre[4] == 's';
    assert s[0..8] == pre[0..8] == "https://";
  }

  lemma AfterWwwHost(s: string)
    requires HasAt(s, 12, "youtube.com/") && s[12] == 'y'
    ensures AfterWww(s, 12) == AfterSlash(s, 24)
  {
    AfterWwwAt(s, 12);
  }

  lemma AfterProtoWww(s: string)
    requires HasAt(s, 8, "www.") && s[8] == 'w' && AfterWww(s, 12) == AfterSlash(s, 24)
    ensures AfterProto(s, 8) == AfterSlash(s, 24)
  {
    AfterWwwAt(s, 8);
    AtHostNone(s, 8);
  }

  lemma MatchAtHttps(s: string)
    requires HasAt(s, 0, "https://") && s[0] == 'h' && s[4] == 's'
    ensures MatchAt(s, 0) == AfterProto(s, 8)
  {
    AfterProtoAt(s, 0);
    AfterWwwAt(s, 0);
    AtHostNone(s, 0);
    NotHasAt(s, 0, "http://", 4);
  }

  /** On a text that starts with "https://www.youtube.com/", the match at
      the first position is decided by the path that follows. */
  lemma StandardPrefix(s: string)
    requires |s| >= 24 && s[..24] == "https://www.youtube.com/"
    ensures MatchAt(s, 0) == AfterSlash(s, 24)
  {
    StandardPrefixChars(s);
    AfterWwwHost(s);
    AfterProtoWww(s);
    MatchAtHttps(s);
  }

  /** A match at the first position is the result. */
  lemma ExtractFirst(s: string)
    requires MatchAt(s, 0).Some?
    ensures Extract(s) == MatchAt(s, 0)
  {
  }

  lemma WatchUrlParts(id: string, rest: string)
    requires |id| == 11
    ensures var s := WatchUrl(id) + rest;
      |s| >= 43 && s[..24] == "https://www.youtube.com/" && s[24..32] == "watch?v=" && s[32..43] == id
  {
    var s := WatchUrl(id) + rest;
    assert s[..43] == WatchUrl(id);
    assert s[..24] == WatchUrl(id)[..24];
    assert s[24..32] == WatchUrl(id)[24..32];
    assert s[32..43] == WatchUrl(id)[32..43];
  }

  /** Round trip: the id of a watch URL built from an id is that id, also
      when more text follows the id. */
  lemma WatchUrlRoundTrip(id: string, rest: string)
    requires IsVideoId(id)
    ensures Extract(WatchUrl(id) + rest) == Some(id)
  {
    var s := WatchUrl(id) + rest;
    WatchUrlParts(id, rest);
    StandardPrefix(s);
    assert AfterSlash(s, 24) == Some(id);
    ExtractFirst(s);
  }

  /** Round trip for the embed URL the repair script stores. */
  lemma EmbedUrlRoundTrip(id: string)
    requires IsVideoId(id)
    ensures Extract(EmbedUrl(id)) == Some(id)
  {
    var s := EmbedUrl(id);
    assert s[..24] == "https://www.youtube.com/";
    StandardPrefix(s);
    assert s[24] == 'e';
    NotHasAt(s, 24, "watch?v=", 0);
    assert s[24..30] == "embed/";
    assert s[30..41] == id;
    assert AfterSlash(s, 24) == Some(id);
    ExtractFirst(s);
  }

  /** Eleven id characters right after the host are captured even when no
      path prefix precedes them and more text follows. */
  lemma BarePathCaptured(id: string, rest: string)
    requires IsVideoId(id) && id[0] != 'w' && id[0] != 'e' && id[0] != 'v'
    ensures Extract("https://www.youtube.com/" + id + rest) == Some(id)
  {
    var s := "https://www.youtube.com/" + id + rest;
    assert s[..24] == "https://www.youtube.com/";
    StandardPrefix(s);
    assert s[24] == id[0];
    NotHasAt(s, 24, "watch?v=", 0);
    NotHasAt(s, 24, "embed/", 0);
    NotHasAt(s, 24, "v/", 0);
    assert s[24..35] == id;
    assert AfterSlash(s, 24) == Some(id);
    ExtractFirst(s);
  }

  /** So a path that is not a video id at all is still captured. */
  lemma NotAVideoPathMatches(s: string)
    requires s == "https://www.youtube.com/not-a-video"
    ensures Extract(s) == Some("not-a-video")
  {
    assert s == "https://www.youtube.com/" + "not-a-video" + "";
    BarePathCaptured("not-a-video", "");
  }

  /** And an over-long id is cut to its first eleven characters. */
  lemma LongIdIsTruncated(s: string)
    requires s == "https://www.youtube.com/watch?v=tooLongVideoId123"
    ensures Extract(s) == Some("tooLongVide")
  {
    assert s == WatchUrl("tooLongVide") + "oId123";
    WatchUrlRoundTrip("tooLongVide", "oId123");
  }
}
