/** Path and Location rewriting between a mounted proxy path and a backend with a base path. */
module HttpRewrite {
  import opened Net
  import opened Text

  /** A configured path, where a lone slash means none. */
  function Configured(path: Option<string>): string {
    if path.Some? && path.value != "/" then path.value else ""
  }

  predicate OnlySlashes(s: string) { forall i :: 0 <= i < |s| ==> s[i] == '/' }

  function TrimSlashes(s: string): (r: string)
    ensures r <= s && OnlySlashes(s[|r|..]) && (r == "" || r[|r| - 1] != '/')
  {
    if s != "" && s[|s| - 1] == '/' then TrimSlashes(s[..|s| - 1]) else s
  }

  function TrimLeadingSlashes(s: string): (r: string)
    ensures |r| <= |s| && s[|s| - |r|..] == r && OnlySlashes(s[..|s| - |r|]) && (r == "" || r[0] != '/')
  {
    if s != "" && s[0] == '/' then TrimLeadingSlashes(s[1..]) else s
  }

  /** At the path or below it. */
  predicate Under(path: string, top: string) { path == top || top + "/" <= path }

  /** The mapping path as configuration normalises it: a lone slash, or a slash and no slash at the end. */
  function NormalizeMappingPath(path: string): (r: string)
    ensures r != "/" ==> Mounts(r)
  {
    var trimmed := Trim(path);
    if trimmed == "/" then "/" else "/" + TrimSlashes(TrimLeadingSlashes(trimmed))
  }

  /** It is one slash and exactly what stands between the outer slashes. */
  lemma MappingPathKept(path: string) returns (a: nat, b: nat)
    ensures a <= b <= |Trim(path)| && Between(Trim(path), a, b)
    ensures NormalizeMappingPath(path) == "/" + Trim(path)[a..b]
  {
    hide Trim, OnlySlashes, TrimLeadingSlashes, TrimSlashes;
    var trimmed := Trim(path);
    if trimmed == "/" {
      a, b := 0, 0;
      LoneSlash();
    } else {
      var tail := TrimLeadingSlashes(trimmed);
      var core := TrimSlashes(tail);
      a := |trimmed| - |tail|;
      b := a + |core|;
      Inside(trimmed, tail, core, a);
    }
  }

  lemma LoneSlash()
    ensures Between("/", 0, 0) && "/" + "/"[0..0] == "/"
  {
  }

  lemma Inside(s: string, tail: string, core: string, a: nat)
    requires a <= |s| && s[a..] == tail && core <= tail
    ensures s[a..a + |core|] == core && s[a + |core|..] == tail[|core|..]
  {
  }

  /** Outside of [a, b) a text has nothing but slashes. */
  predicate Between(s: string, a: int, b: int)
    requires 0 <= a <= b <= |s|
  {
    OnlySlashes(s[..a]) && OnlySlashes(s[b..])
  }

  /** What configuration makes of a path that is not just a slash. */
  predicate Mounts(path: string) { |path| > 1 && path[0] == '/' && path[|path| - 1] != '/' }

  // ---------- requests ----------

  function StripMountPath(path: string, mount: Option<string>): string {
    if mount.None? || mount.value == "/" then path
    else
      var normalized := TrimSlashes(mount.value);
      if path == normalized then "/"
      else if normalized + "/" <= path then "/" + path[|normalized| + 1..]
      else path
  }

  function RebasePath(base: Option<string>, path: string, mount: Option<string>): string {
    var normalized := TrimSlashes(Configured(base));
    var mounted := StripMountPath(path, mount);
    if normalized != "" && !Under(path, normalized) then
      if mounted == "/" then normalized + "/" else normalized + mounted
    else mounted
  }

  /** An origin-form request target. */
  function NormalizeTarget(base: Option<string>, target: string, mount: Option<string>): string {
    match SplitOnce(target, '?')
    case None => if "/" <= target then RebasePath(base, target, mount) else target
    case Some((path, query)) => if "/" <= path then RebasePath(base, path, mount) + "?" + query else target
  }

  predicate IsAbsoluteForm(target: string) { "http://" <= target || "https://" <= target }

  /** Any request target; the URL parser gives path and query of an absolute form it accepts. */
  function NormalizeProxyPath(parseUrl: string -> Option<string>, base: Option<string>, target: string,
                              mount: Option<string>): string {
    if IsAbsoluteForm(target) && parseUrl(target).Some? then NormalizeTarget(base, parseUrl(target).value, mount)
    else NormalizeTarget(base, target, mount)
  }

  /** The request line, left alone unless it is three words ending in an HTTP/1 version. */
  function RewriteRequestLine(parseUrl: string -> Option<string>, base: Option<string>, mount: Option<string>,
                              line: string): string {
    var parts := Words(line);
    if |parts| != 3 || !("HTTP/1." <= parts[2]) then line
    else parts[0] + " " + NormalizeProxyPath(parseUrl, base, parts[1], mount) + " " + parts[2]
  }

  // ---------- responses ----------

  function ToProxyPath(mount: string, path: string): string {
    if mount == "" then path else if path == "/" then mount else mount + path
  }

  function MapLocation(origin: string, base: Option<string>, mount: Option<string>, location: string): string {
    var b := Configured(base);
    var m := Configured(mount);
    if location == origin + b || location == origin + b + "/" then ToProxyPath(m, "/")
    else if b != "" && origin + b + "/" <= location then ToProxyPath(m, location[|origin + b|..])
    else if location == origin then ToProxyPath(m, if b == "" then "/" else b)
    else location
  }

  // ---------- a redirect and the request that follows it ----------

  function PathOf(target: string): string { Before(target, '?') }

  /** The public path a redirect to base + p is given. */
  function PublicTarget(mount: Option<string>, p: string): string { ToProxyPath(Configured(mount), p) }

  lemma RedirectIsPublic(origin: string, base: string, mount: Option<string>, p: string)
    requires Mounts(base) && "/" <= p
    ensures MapLocation(origin, Some(base), mount, origin + base + p) == PublicTarget(mount, p)
  {
    var location := origin + base + p;
    assert location[|origin + base|..] == p;
    assert location == origin + base + "/" <==> p == "/" by {
      assert (origin + base + "/")[|origin + base|..] == "/";
    }
    assert origin + base + "/" <= location by {
      assert location[..|origin + base| + 1] == origin + base + p[..1];
    }
  }

  /** A target is its path, or its path and its query. */
  lemma TargetParts(p: string) returns (path: string, tail: string)
    ensures p == path + tail && '?' !in path && (tail == "" || tail[0] == '?') && path == PathOf(p)
    ensures "/" <= p ==> "/" <= path
  {
    path := PathOf(p);
    tail := p[|path|..];
    if Find(p, "?").Some? {
      FindSome(p, "?");
      var i := Find(p, "?").value;
      assert p[i..i + 1][0] == p[i];
      FreeBefore(p, '?', i);
    } else {
      FindNone(p, "?");
      FreeBefore(p, '?', |p|);
      assert p[..|p|] == p;
    }
  }

  /** The query is kept whatever happens to the path. */
  lemma TargetRebased(base: Option<string>, path: string, tail: string, mount: Option<string>)
    requires "/" <= path && '?' !in path && (tail == "" || tail[0] == '?')
    ensures NormalizeTarget(base, path + tail, mount) == RebasePath(base, path, mount) + tail
  {
    hide RebasePath;
    if tail == "" {
      assert path + tail == path;
      SplitNot(path, '?');
      assert RebasePath(base, path, mount) + tail == RebasePath(base, path, mount);
    } else {
      assert path + tail == path + ['?'] + tail[1..];
      SplitAt(path, '?', tail[1..]);
      assert RebasePath(base, path, mount) + "?" + tail[1..] == RebasePath(base, path, mount) + tail;
    }
  }

  lemma RebaseUnmounted(base: string, path: string, mount: Option<string>)
    requires Mounts(base) && StripMountPath(path, mount) == path
    ensures RebasePath(Some(base), path, mount) == if Under(path, base) then path else base + path
  {
  }

  /** Without a mount path. */
  lemma FollowUnmounted(base: string, mount: Option<string>, p: string)
    requires Mounts(base) && "/" <= p && (mount.None? || mount.value == "/")
    ensures NormalizeTarget(Some(base), p, mount) == base + p <==> !Under(PathOf(p), base)
  {
    hide RebasePath, Under, NormalizeTarget, PathOf;
    var path, tail := TargetParts(p);
    assert StripMountPath(path, mount) == path;
    hide StripMountPath;
    TargetRebased(Some(base), path, tail, mount);
    RebaseUnmounted(base, path, mount);
    assert base + path + tail == base + p;
    assert Under(path, base) ==> |path + tail| < |base + p|;
  }

  lemma StripsMount(m: string, path: string)
    requires Mounts(m) && (path == "" || "/" <= path)
    ensures StripMountPath(m + path, Some(m)) == if path == "" then "/" else path
  {
    if path == "" {
      assert m + path == m;
    } else {
      assert (m + path)[|m| + 1..] == path[1..];
      assert (m + path)[..|m| + 1] == m + "/";
      assert "/" + path[1..] == path;
    }
  }

  lemma RebaseMounted(base: string, m: string, path: string)
    requires Mounts(base) && Mounts(m) && (path == "" || "/" <= path)
    ensures var q := if path == "" then "/" else path;
      RebasePath(Some(base), m + path, Some(m)) == if Under(m + path, base) then q else base + q
  {
    hide StripMountPath, Under;
    StripsMount(m, path);
  }

  lemma FollowMountRoot(base: string, m: string)
    requires Mounts(base) && Mounts(m) && '?' !in m
    ensures NormalizeTarget(Some(base), m, Some(m)) == base + "/" <==> !Under(PathOf(m), base)
  {
    hide RebasePath, Under, NormalizeTarget;
    assert m + "" == m;
    RebaseMounted(base, m, "");
    TargetRebased(Some(base), m, "", Some(m));
    SplitNot(m, '?');
  }

  /** With a mount path that holds no question mark. */
  lemma FollowMounted(base: string, m: string, p: string)
    requires Mounts(base) && Mounts(m) && "/" <= p && '?' !in m
    ensures var public := PublicTarget(Some(m), p);
      NormalizeTarget(Some(base), public, Some(m)) == base + p <==> !Under(PathOf(public), base)
  {
    hide RebasePath, Under, NormalizeTarget, PathOf;
    if p == "/" {
      FollowMountRoot(base, m);
    } else {
      var path, tail := TargetParts(p);
      FollowMountedPath(base, m, path, tail);
      assert m + path + tail == m + p && base + path + tail == base + p;
    }
  }

  lemma FollowMountedPath(base: string, m: string, path: string, tail: string)
    requires Mounts(base) && Mounts(m) && '?' !in m
    requires "/" <= path && '?' !in path && (tail == "" || tail[0] == '?')
    ensures NormalizeTarget(Some(base), m + path + tail, Some(m)) == base + path + tail
      <==> !Under(PathOf(m + path + tail), base)
  {
    hide RebasePath, Under, NormalizeTarget, PathOf;
    assert "/" <= m + path;
    TargetRebased(Some(base), m + path, tail, Some(m));
    PathOfMounted(m, path, tail);
    RebaseMounted(base, m, path);
  }

  lemma PathOfMounted(m: string, path: string, tail: string)
    requires '?' !in m && '?' !in path && (tail == "" || tail[0] == '?')
    ensures PathOf(m + path + tail) == m + path
  {
    if tail == "" {
      assert m + path + tail == m + path;
      SplitNot(m + path, '?');
    } else {
      assert m + path + tail == (m + path) + ['?'] + tail[1..];
      SplitAt(m + path, '?', tail[1..]);
    }
  }

  lemma UnderIsLonger(path: string, base: string)
    requires Under(path, base)
    ensures |path| >= |base|
  {
  }

  lemma SameTail(a: string, b: string, p: string)
    requires a + p == b + p
    ensures |a| == |b|
  {
  }

  /** With a question mark in the mount path a redirect is never followed back. */
  lemma FollowQuestionMark(base: string, m: string, p: string)
    requires Mounts(base) && Mounts(m) && "/" <= p && '?' in m
    ensures NormalizeTarget(Some(base), PublicTarget(Some(m), p), Some(m)) != base + p
  {
    hide RebasePath, Under, NormalizeTarget;
    var public := PublicTarget(Some(m), p);
    assert m <= public;
    var path, tail := TargetParts(public);
    var i :| 0 <= i < |m| && m[i] == '?';
    assert public[i] == '?';
    assert |path| < |m|;
    TargetRebased(Some(base), path, tail, Some(m));
    RebaseUnmounted(base, path, Some(m));
    assert public == path + tail;
    if Under(path, base) {
      UnderIsLonger(path, base);
      if public == base + p {
        if p != "/" {
          SameTail(m, base, p);
        }
      }
    } else {
      assert |base + path + tail| > |base + p|;
    }
  }

  /**
   Location and request rewriting are inverse: following a redirect to origin + base + p brings the
   backend base + p, query and all, exactly when the public path is neither the base nor below it
   and the mount path holds no question mark.
   */
  lemma FollowedRedirectIff(parseUrl: string -> Option<string>, origin: string, base: string,
                            mount: Option<string>, p: string)
    requires Mounts(base) && "/" <= p && (mount.Some? && mount.value != "/" ==> Mounts(mount.value))
    ensures var public := MapLocation(origin, Some(base), mount, origin + base + p);
      NormalizeProxyPath(parseUrl, Some(base), public, mount) == base + p
      <==> !Under(PathOf(public), base) && '?' !in Configured(mount)
  {
    hide MapLocation, NormalizeTarget, Under;
    RedirectIsPublic(origin, base, mount, p);
    var public := PublicTarget(mount, p);
    assert "/" <= public;
    assert public[0] == '/';
    assert !IsAbsoluteForm(public);
    if Configured(mount) == "" {
      FollowUnmounted(base, mount, p);
    } else if '?' !in mount.value {
      FollowMounted(base, mount.value, p);
    } else {
      FollowQuestionMark(base, mount.value, p);
    }
  }

  /** A redirect from the base to the base again: the request that follows it loses one of the two. */
  lemma RepeatedBaseIsLost(parseUrl: string -> Option<string>, origin: string, base: string)
    requires Mounts(base) && '?' !in base
    ensures var public := MapLocation(origin, Some(base), None, origin + base + base);
      public == base && NormalizeProxyPath(parseUrl, Some(base), public, None) == base != base + base
  {
    hide MapLocation, NormalizeTarget, Under;
    RedirectIsPublic(origin, base, None, base);
    assert base[0] == '/' && !IsAbsoluteForm(base);
    SplitNot(base, '?');
    TargetRebased(Some(base), base, "", None);
    assert base + "" == base;
    assert Under(base, base) by { UnderItself(base); }
    RebaseUnmounted(base, base, None);
  }

  lemma UnderItself(base: string)
    ensures Under(base, base)
  {
  }

  /** A client that asks for the redirect's target reaches base + p: the request line of the two rewrites. */
  lemma FollowingRequestLine(parseUrl: string -> Option<string>, origin: string, base: string,
                             mount: Option<string>, p: string, verb: string, version: string)
    requires Mounts(base) && "/" <= p && (mount.Some? && mount.value != "/" ==> Mounts(mount.value))
    requires IsWord(verb) && IsWord(version) && "HTTP/1." <= version
    requires var public := MapLocation(origin, Some(base), mount, origin + base + p);
      IsWord(public) && !Under(PathOf(public), base) && '?' !in Configured(mount)
    ensures var public := MapLocation(origin, Some(base), mount, origin + base + p);
      RewriteRequestLine(parseUrl, Some(base), mount, verb + " " + public + " " + version)
      == verb + " " + base + p + " " + version
  {
    hide MapLocation, NormalizeProxyPath, Under, Words, IsWord;
    var public := MapLocation(origin, Some(base), mount, origin + base + p);
    FollowedRedirectIff(parseUrl, origin, base, mount, p);
    var line := verb + " " + public + " " + version;
    assert Join([verb, public, version], " ") == line by {
      JoinThree(verb, public, version, " ");
      assert verb + " " + (public + " " + version) == line;
    }
    WordsOfJoin([verb, public, version]);
    assert verb + " " + (base + p) + " " + version == verb + " " + base + p + " " + version;
  }

  /** With no mount path, a target that has been given the base is not given it again. */
  lemma BasedOnce(base: string, target: string)
    requires Mounts(base) && '?' !in base
    ensures var once := NormalizeTarget(Some(base), target, None);
      NormalizeTarget(Some(base), once, None) == once
  {
    hide RebasePath, Under;
    var path, tail := TargetParts(target);
    if "/" <= path {
      TargetRebased(Some(base), path, tail, None);
      RebaseUnmounted(base, path, None);
      var based := RebasePath(Some(base), path, None);
      assert Under(based, base) by { BaseIsUnder(base, path); }
      assert "/" <= based && '?' !in based;
      TargetRebased(Some(base), based, tail, None);
      RebaseUnmounted(base, based, None);
    } else {
      assert PathOf(target) == path;
    }
  }

  lemma BaseIsUnder(base: string, path: string)
    requires "/" <= path
    ensures Under(base + path, base)
  {
    assert (base + path)[..|base| + 1] == base + path[..1];
  }
}
