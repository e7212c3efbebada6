/**
 * The pure part of src/components/VideoDisplay.jsx: recognising a YouTube
 * video id in a URL, clamping the parsed start and duration, and deriving the
 * clip's end.
 *
 * The `URL` constructor is abstracted: the caller passes `None` when it throws,
 * and otherwise the hostname, the pathname and the first `v` query parameter.
 * `Number.parseInt(value, 10)` is abstracted the same way: `None` is NaN.
 */
module VideoDisplay {
  import opened Js

  const MaxSafeInteger: int := 9007199254740991
  const MaxClipSeconds: int := 600

  datatype Url = Url(hostname: string, pathname: string, v: Option<string>)

  datatype Clip = Clip(start: int, dur: int, end: Option<int>)

  // ---------------------------------------------------------------------------
  // Strings

  /** `/^[a-zA-Z0-9_-]{11}$/` */
  predicate IsVideoId(s: string)
  {
    |s| == 11 && forall i :: 0 <= i < |s| ==> IsIdChar(s[i])
  }

  predicate IsIdChar(c: char)
  {
    ('a' <= c <= 'z') || ('A' <= c <= 'Z') || ('0' <= c <= '9') || c == '_' || c == '-'
  }

  predicate EndsWith(s: string, suffix: string)
  {
    |suffix| <= |s| && s[|s| - |suffix|..] == suffix
  }

  /** `.replace(/^www\./, '')`: one leading "www." goes. */
  function StripWww(host: string): string
  {
    if |host| >= 4 && host[..4] == "www." then host[4..] else host
  }

  /** `s.split('/')`. */
  function Split(s: string): (r: seq<string>)
    ensures |r| >= 1
    ensures forall i :: 0 <= i < |r| ==> '/' !in r[i]
  {
    if s == [] then [[]]
    else
      var rest := Split(s[1..]);
      if s[0] == '/' then [[]] + rest else [[s[0]] + rest[0]] + rest[1..]
  }

  /** `parts.join('/')`, the inverse of `Split`. */
  function Join(parts: seq<string>): string
    requires |parts| >= 1
  {
    if |parts| == 1 then parts[0] else parts[0] + "/" + Join(parts[1..])
  }

  lemma {:induction false} JoinOfSplit(s: string)
    ensures Join(Split(s)) == s
  {
    if s != [] {
      JoinOfSplit(s[1..]);
      var rest := Split(s[1..]);
      if s[0] == '/' {
        assert s == "/" + s[1..];
      } else if |rest| == 1 {
        assert s == [s[0]] + s[1..];
      } else {
        var r := [[s[0]] + rest[0]] + rest[1..];
        assert r[1..] == rest[1..];
        assert s == [s[0]] + s[1..];
      }
    }
  }

  lemma {:induction false} SplitOfJoin(parts: seq<string>)
    requires |parts| >= 1
    requires forall i :: 0 <= i < |parts| ==> '/' !in parts[i]
    ensures Split(Join(parts)) == parts
  {
    if |parts| == 1 {
      SplitOfSlashFree(parts[0], []);
    } else {
      SplitOfJoin(parts[1..]);
      SplitOfSlashFree(parts[0], parts[1..]);
      assert [parts[0]] + parts[1..] == parts;
    }
  }

  /** Splitting `a` (no slash), optionally followed by "/" and a joined tail. */
  lemma {:induction false} SplitOfSlashFree(a: string, tail: seq<string>)
    requires '/' !in a
    requires tail != [] ==> Split(Join(tail)) == tail
    ensures tail == [] ==> Split(a) == [a]
    ensures tail != [] ==> Split(a + "/" + Join(tail)) == [a] + tail
  {
    if a == [] {
      if tail != [] {
        assert a + "/" + Join(tail) == "/" + Join(tail);
        assert ("/" + Join(tail))[1..] == Join(tail);
      }
    } else {
      assert '/' !in a[1..] by {
        forall i | 0 <= i < |a[1..]| ensures a[1..][i] != '/' {
          assert a[1..][i] == a[i + 1];
        }
      }
      SplitOfSlashFree(a[1..], tail);
      if tail == [] {
        assert a[1..] == a[1..];
      } else {
        assert (a + "/" + Join(tail))[1..] == a[1..] + "/" + Join(tail);
      }
      assert [a[0]] + a[1..] == a;
    }
  }

  /** `.filter(Boolean)` on strings: the non-empty ones, in order. */
  function NonEmpty(parts: seq<string>): (r: seq<string>)
    ensures |r| <= |parts|
    ensures forall i :: 0 <= i < |r| ==> r[i] != [] && r[i] in parts
  {
    if parts == [] then []
    else (if parts[0] == [] then [] else [parts[0]]) + NonEmpty(parts[1..])
  }

  /** The filter works piece by piece: it distributes over concatenation. */
  lemma {:induction false} NonEmptyAppend(a: seq<string>, b: seq<string>)
    ensures NonEmpty(a + b) == NonEmpty(a) + NonEmpty(b)
  {
    if a == [] {
      assert a + b == b;
    } else {
      assert (a + b)[0] == a[0];
      assert (a + b)[1..] == a[1..] + b;
      NonEmptyAppend(a[1..], b);
      var head := if a[0] == [] then [] else [a[0]];
      assert NonEmpty(a + b) == head + NonEmpty(a[1..] + b);
      assert NonEmpty(a) == head + NonEmpty(a[1..]);
    }
  }

  /** On a single piece the filter keeps it exactly when it is non-empty. */
  lemma NonEmptyOne(x: string)
    ensures NonEmpty([x]) == if x == [] then [] else [x]
  {
    assert [x][1..] == [];
  }

  /** `url.pathname.split('/').filter(Boolean)`. */
  function PathSegments(pathname: string): (r: seq<string>)
    ensures forall i :: 0 <= i < |r| ==> r[i] != [] && '/' !in r[i]
  {
    NonEmpty(Split(pathname))
  }

  predicate IsYouTubeHost(host: string)
  {
    EndsWith(host, "youtube.com") || EndsWith(host, "youtube-nocookie.com")
  }

  predicate IsEmbedPrefix(head: string)
  {
    head == "embed" || head == "shorts" || head == "live" || head == "v"
  }

  // ---------------------------------------------------------------------------
  // parseYouTubeId

  /**
   * `parseYouTubeId`: null for an empty input or an unparsable URL. On
   * `youtu.be` the id is the first path segment; on a YouTube host it is the
   * `v` parameter of `/watch` or the segment after `embed`, `shorts`, `live` or
   * `v`; every other host gives null. Whatever comes back is a well-formed
   * eleven-character id, taken from the URL.
   */
  function ParseYouTubeId(input: string, url: Option<Url>): (r: Option<string>)
    ensures input == "" || url.None? ==> r.None?
    ensures r.Some? ==> IsVideoId(r.value)
    ensures r.Some? ==> StripWww(url.value.hostname) == "youtu.be" || IsYouTubeHost(StripWww(url.value.hostname))
    ensures r.Some? && StripWww(url.value.hostname) == "youtu.be" ==>
              |url.value.pathname| >= 1 &&
              (url.value.pathname[1..] == r.value || r.value + "/" <= url.value.pathname[1..])
    ensures r.Some? && StripWww(url.value.hostname) != "youtu.be" && url.value.pathname == "/watch" ==>
              r == url.value.v
    ensures r.Some? && StripWww(url.value.hostname) != "youtu.be" && url.value.pathname != "/watch" ==>
              var parts := PathSegments(url.value.pathname);
              |parts| >= 2 && IsEmbedPrefix(parts[0]) && r.value == parts[1]
  {
    if input == "" || url.None? then None
    else
      var u := url.value;
      var host := StripWww(u.hostname);
      if host == "youtu.be" then
        var tail := if u.pathname == [] then [] else u.pathname[1..];
        var id := Split(tail)[0];
        FirstPiece(tail);
        if IsVideoId(id) then Some(id) else None
      else if IsYouTubeHost(host) then
        if u.pathname == "/watch" then
          if u.v.Some? && u.v.value != "" && IsVideoId(u.v.value) then u.v else None
        else
          var parts := PathSegments(u.pathname);
          if |parts| >= 2 && IsEmbedPrefix(parts[0]) && IsVideoId(parts[1]) then Some(parts[1]) else None
      else None
  }

  /** A host that is neither `youtu.be` nor a YouTube domain (after one "www.") never yields an id. */
  lemma OtherHostsRejected(input: string, u: Url)
    requires StripWww(u.hostname) != "youtu.be" && !IsYouTubeHost(StripWww(u.hostname))
    ensures ParseYouTubeId(input, Some(u)) == None
  {
  }

  /** The first piece of `a + "/" + rest` is `a` when `a` has no slash, whatever `rest` is. */
  lemma {:induction false} SplitHead(a: string, rest: string)
    requires '/' !in a
    ensures Split(a)[0] == a
    ensures Split(a + "/" + rest)[0] == a
  {
    if a == [] {
      assert a + "/" + rest == "/" + rest;
    } else {
      assert '/' !in a[1..] by {
        forall i | 0 <= i < |a[1..]| ensures a[1..][i] != '/' {
          assert a[1..][i] == a[i + 1];
        }
      }
      SplitHead(a[1..], rest);
      assert (a + "/" + rest)[1..] == a[1..] + "/" + rest;
      assert [a[0]] + a[1..] == a;
    }
  }

  /** The first piece of `split('/')` is the text up to the first slash, or all of it when there is none. */
  lemma {:induction false} FirstPiece(t: string)
    ensures var a := Split(t)[0]; (a == t || a + "/" <= t)
  {
    if t != [] && t[0] != '/' {
      FirstPiece(t[1..]);
      var b := Split(t[1..])[0];
      assert Split(t)[0] == [t[0]] + b;
      if b == t[1..] {
        assert [t[0]] + b == t;
      } else {
        assert ([t[0]] + b + "/") == [t[0]] + (b + "/");
        assert t == [t[0]] + t[1..];
      }
    }
  }

  /**
   * On `youtu.be` the result is exactly the first path segment, when that is a
   * well-formed id: an id comes back precisely when the path after its
   * leading character is the id, possibly followed by "/" and more; a
   * malformed first segment gives null.
   */
  lemma ShortLinkExact(input: string, u: Url, id: string)
    requires input != "" && StripWww(u.hostname) == "youtu.be"
    ensures ParseYouTubeId(input, Some(u)) == Some(id) <==>
              && IsVideoId(id) && |u.pathname| >= 1
              && (u.pathname[1..] == id || id + "/" <= u.pathname[1..])
    ensures ParseYouTubeId(input, Some(u)).None? <==> !IsVideoId(Split(if u.pathname == [] then [] else u.pathname[1..])[0])
  {
    if IsVideoId(id) && |u.pathname| >= 1 && (u.pathname[1..] == id || id + "/" <= u.pathname[1..]) {
      assert '/' !in id;
      var t := u.pathname[1..];
      if t == id {
        SplitHead(id, "");
      } else {
        assert t == id + "/" + t[|id| + 1..];
        SplitHead(id, t[|id| + 1..]);
      }
    }
  }

  /** Short links: `https://youtu.be/<id>` and `https://youtu.be/<id>/<anything>` give back the id. */
  lemma ShortLinkRoundTrip(input: string, host: string, id: string, rest: Option<string>, v: Option<string>)
    requires input != "" && (host == "youtu.be" || host == "www.youtu.be")
    requires IsVideoId(id)
    ensures var path := if rest.None? then "/" + id else "/" + id + "/" + rest.value;
            ParseYouTubeId(input, Some(Url(host, path, v))) == Some(id)
  {
    assert "youtu.be"[..4] == "yout" && "www.youtu.be"[..4] == "www." && "www.youtu.be"[4..] == "youtu.be";
    assert '/' !in id;
    if rest.None? {
      SplitHead(id, "");
      assert ("/" + id)[1..] == id;
    } else {
      SplitHead(id, rest.value);
      assert ("/" + id + "/" + rest.value)[1..] == id + "/" + rest.value;
    }
  }

  /** Watch links: `/watch?v=<id>` on a YouTube host gives back the id, and nothing else is accepted there. */
  lemma WatchLinkRoundTrip(input: string, host: string, v: Option<string>)
    requires input != "" && StripWww(host) != "youtu.be" && IsYouTubeHost(StripWww(host))
    ensures ParseYouTubeId(input, Some(Url(host, "/watch", v))) ==
            if v.Some? && IsVideoId(v.value) then v else None
  {
  }

  /**
   * Embed-style links on a YouTube host: for any path other than `/watch`,
   * the result is `id` exactly when the first two path segments are an embed
   * prefix and the well-formed `id`, whatever segments follow.
   */
  lemma EmbedLinkExact(input: string, u: Url, id: string)
    requires input != "" && StripWww(u.hostname) != "youtu.be" && IsYouTubeHost(StripWww(u.hostname))
    requires u.pathname != "/watch"
    ensures ParseYouTubeId(input, Some(u)) == Some(id) <==>
              var parts := PathSegments(u.pathname);
              |parts| >= 2 && IsEmbedPrefix(parts[0]) && parts[1] == id && IsVideoId(id)
  {
  }

  /**
   * Embed-style links: `/embed/<id>`, `/shorts/<id>`, `/live/<id>` and
   * `/v/<id>`, bare, with a trailing slash or followed by further segments,
   * give back the id.
   */
  lemma EmbedLinkRoundTrip(input: string, host: string, head: string, id: string, rest: Option<string>, v: Option<string>)
    requires input != "" && StripWww(host) != "youtu.be" && IsYouTubeHost(StripWww(host))
    requires IsEmbedPrefix(head) && IsVideoId(id)
    ensures var path := EmbedPath(head, id, rest);
            ParseYouTubeId(input, Some(Url(host, path, v))) == Some(id)
  {
    var path := EmbedPath(head, id, rest);
    assert path != "/watch" by {
      assert |path| >= 2 + |head| + |id| && |id| == 11;
    }
    EmbedPathSegments(head, id, rest);
    EmbedLinkExact(input, Url(host, path, v), id);
  }

  /** The path `/<head>/<id>`, or `/<head>/<id>/<rest>` when a rest is given. */
  function EmbedPath(head: string, id: string, rest: Option<string>): string
  {
    if rest.None? then "/" + head + "/" + id else "/" + head + "/" + id + "/" + rest.value
  }

  /** The segments of `/<head>/<id>[/<rest>]` start with `head` and `id`. */
  lemma EmbedPathSegments(head: string, id: string, rest: Option<string>)
    requires '/' !in head && '/' !in id && head != [] && id != []
    ensures var path := EmbedPath(head, id, rest);
            |PathSegments(path)| >= 2 && PathSegments(path)[0] == head && PathSegments(path)[1] == id
  {
    var tail := if rest.None? then [] else Split(rest.value);
    var parts := ["", head, id] + tail;
    JoinEmbed(head, id, rest);
    SplitOfJoin(parts);
    NonEmptyEmbed(head, id, tail);
  }

  lemma JoinEmbed(head: string, id: string, rest: Option<string>)
    ensures var tail := if rest.None? then [] else Split(rest.value);
            var path := EmbedPath(head, id, rest);
            Join(["", head, id] + tail) == path
  {
    var tail := if rest.None? then [] else Split(rest.value);
    var t2 := [id] + tail;
    if rest.None? {
      assert t2 == [id];
    } else {
      JoinOfSplit(rest.value);
      JoinCons(id, tail);
    }
    JoinCons(head, t2);
    JoinCons("", [head] + t2);
    assert ["", head, id] + tail == [""] + ([head] + t2);
    var rhs := "" + "/" + (head + "/" + Join(t2));
    if rest.None? {
      assert rhs == "/" + head + "/" + id;
    } else {
      assert rhs == "/" + head + "/" + id + "/" + rest.value;
    }
  }

  /** Joining a piece in front of at least one more piece puts a '/' between them. */
  lemma JoinCons(x: string, t: seq<string>)
    requires |t| >= 1
    ensures Join([x] + t) == x + "/" + Join(t)
  {
    assert ([x] + t)[1..] == t;
  }

  lemma NonEmptyEmbed(head: string, id: string, tail: seq<string>)
    requires head != [] && id != []
    ensures NonEmpty(["", head, id] + tail) == [head, id] + NonEmpty(tail)
  {
    NonEmptyAppend([head], [id]);
    NonEmptyOne(head);
    NonEmptyOne(id);
    NonEmptyOne("");
    assert [head, id] == [head] + [id];
    var hi := NonEmpty([head, id]);
    assert hi == [head, id];
    NonEmptyAppend([""], [head, id]);
    assert ["", head, id] == [""] + [head, id];
    assert NonEmpty(["", head, id]) == [head, id];
    NonEmptyAppend(["", head, id], tail);
  }

  /** The host test is a suffix test, so a look-alike domain such as `notyoutube.com` counts as YouTube. */
  lemma LookalikeHostAccepted()
    ensures IsYouTubeHost(StripWww("notyoutube.com"))
  {
    assert "notyoutube.com"[..4] == "noty";
    assert "notyoutube.com"[3..] == "youtube.com";
  }

  // ---------------------------------------------------------------------------
  // clampInt and the clip

  /**
   * `clampInt`: `min` for NaN, otherwise `Math.min(max, Math.max(min, n))`, so
   * inside `[min, max]` whenever that range is non-empty, and `n` itself when
   * `n` is already inside it.
   */
  function ClampInt(parsed: Option<int>, min: int, max: int): (r: int)
    ensures parsed.None? ==> r == min
    ensures min <= max ==> min <= r <= max
    ensures parsed.Some? && min <= parsed.value <= max ==> r == parsed.value
    ensures parsed.Some? && parsed.value < min ==> r == (if min <= max then min else max)
    ensures parsed.Some? && parsed.value > max ==> r == max
  {
    match parsed
    case None => min
    case Some(n) =>
      var atLeast := if n > min then n else min;
      if atLeast < max then atLeast else max
  }

  /**
   * The clip a video plays: the start clamped to `[0, MAX_SAFE_INTEGER]`, the
   * duration to `[0, 600]`, and an end `start + dur` only for a positive
   * duration.
   */
  function ClipOf(startTime: Option<int>, duration: Option<int>): (c: Clip)
    ensures 0 <= c.start <= MaxSafeInteger && 0 <= c.dur <= MaxClipSeconds
    ensures c.end.Some? <==> c.dur > 0
    ensures c.end.Some? ==> c.end.value == c.start + c.dur && c.end.value > c.start
    ensures startTime.Some? && 0 <= startTime.value <= MaxSafeInteger ==> c.start == startTime.value
    ensures duration.Some? && 0 <= duration.value <= MaxClipSeconds ==> c.dur == duration.value
    ensures startTime.None? ==> c.start == 0
    ensures duration.None? || (duration.Some? && duration.value <= 0) ==> c.dur == 0 && c.end.None?
  {
    var start := ClampInt(startTime, 0, MaxSafeInteger);
    var dur := ClampInt(duration, 0, MaxClipSeconds);
    Clip(start, dur, if dur > 0 then Some(start + dur) else None)
  }

  /** The component's defaults (`startTime = 0`, `duration = 10`) give the clip from 0 to 10. */
  lemma DefaultClip()
    ensures ClipOf(Some(0), Some(10)) == Clip(0, 10, Some(10))
  {
  }
}
