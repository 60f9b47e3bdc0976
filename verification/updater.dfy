/**
 * The launcher's updater: splitting the release tag into the app and
 * launcher versions, the flags `check` sets, the guards of `download`, and
 * the branch `install_update` takes.
 *
 * Files, the network and processes are inputs or recorded actions; version
 * comparison is an abstract order on the texts `packaging` can parse.
 */
module LauncherUpdater {
  import opened Wrappers
  import opened PyText

  // ---------------------------------------------------------------- versions

  /** `packaging.version`: which texts parse, and the strict order between two that do. */
  datatype Versions = Versions(parses: string -> bool, greater: (string, string) -> bool)

  /** `version.parse(a) > version.parse(b)`: None when either parse raises. */
  function Newer(vs: Versions, a: string, b: string): (r: Option<bool>)
    ensures r.Some? <==> vs.parses(a) && vs.parses(b)
    ensures r.Some? ==> (r.value <==> vs.greater(a, b))
  {
    if vs.parses(a) && vs.parses(b) then Some(vs.greater(a, b)) else None
  }

  // ---------------------------------------------------------------- tags

  /** The two versions a release tag carries. */
  datatype TagParts = TagParts(app: string, launcher: string)

  /** The characters stripped from the app version. */
  const VChars: set<char> := {'v'}

  /**
   * The launcher version is the second `--` piece of the second `+` piece;
   * the app version is the first `+` piece with its `v`s stripped. None
   * when either index is out of range (an IndexError in the source).
   */
  function SplitTag(tag: string): (r: Option<TagParts>)
    ensures r.Some? ==> Find(tag, "+") >= 0
    ensures r.Some? ==> r.value.app == StripChars(tag[..Find(tag, "+")], VChars)
    ensures Find(tag, "+") == -1 ==> r.None?
  {
    var plus := Split(tag, "+");
    if |plus| < 2 then None
    else
      var dashes := Split(plus[1], "--");
      if |dashes| < 2 then None
      else Some(TagParts(StripChars(plus[0], VChars), dashes[1]))
  }

  /** The first occurrence is where the text occurs with no earlier occurrence. */
  lemma FindAt(s: string, sub: string, k: nat)
    requires OccursAt(s, sub, k)
    requires forall j :: 0 <= j < k ==> !OccursAt(s, sub, j)
    ensures Find(s, sub) == k
  {
  }

  /** A text with no `+` in it. */
  predicate NoPlus(s: string) {
    forall i :: 0 <= i < |s| ==> s[i] != '+'
  }

  /** A text with no `--` in it. */
  predicate NoDoubleDash(s: string) {
    forall i :: 0 <= i < |s| - 1 ==> !(s[i] == '-' && s[i + 1] == '-')
  }

  /** The first `+` of `a + "+" + b` is the one after `a` when `a` has none. */
  lemma FindPlus(a: string, b: string)
    requires NoPlus(a)
    ensures Find(a + "+" + b, "+") == |a|
  {
    var s := a + "+" + b;
    assert s[|a|..|a| + 1] == "+";
    forall j | 0 <= j < |a|
      ensures !OccursAt(s, "+", j)
    {
      assert s[j] == a[j];
    }
    FindAt(s, "+", |a|);
  }

  /** The first `--` of `x + "--" + y` is the one after `x` when `x` has none and does not end with `-`. */
  lemma FindDoubleDash(x: string, y: string)
    requires NoDoubleDash(x) && (|x| == 0 || x[|x| - 1] != '-')
    ensures Find(x + "--" + y, "--") == |x|
  {
    var s := x + "--" + y;
    assert s[|x|..|x| + 2] == "--";
    forall j | 0 <= j < |x|
      ensures !OccursAt(s, "--", j)
    {
      assert s[j] == x[j];
      if j + 1 < |x| {
        assert s[j + 1] == x[j + 1];
      }
    }
    FindAt(s, "--", |x|);
  }

  /** Split's pieces when the separator occurs exactly where expected. */
  lemma SplitAt(s: string, sep: string, k: nat)
    requires |sep| > 0 && Find(s, sep) == k
    ensures |Split(s, sep)| >= 2 ==> Split(s, sep)[1] == Split(s[k + |sep|..], sep)[0]
    ensures Split(s, sep)[0] == s[..k]
    ensures |Split(s, sep)| == 1 + |Split(s[k + |sep|..], sep)|
  {
  }

  /** A text without `+` is a single `+` piece. */
  lemma SplitNoPlus(s: string)
    requires NoPlus(s)
    ensures Split(s, "+") == [s]
  {
    forall k | 0 <= k <= |s|
      ensures !OccursAt(s, "+", k)
    {
      if k < |s| {
        assert s[k..k + 1][0] == s[k];
      }
    }
  }

  /** A text without `--` is a single `--` piece. */
  lemma SplitNoDoubleDash(s: string)
    requires NoDoubleDash(s)
    ensures Split(s, "--") == [s]
  {
    forall k | 0 <= k <= |s|
      ensures !OccursAt(s, "--", k)
    {
      NoDoubleDashAt(s, k);
    }
  }

  /** A text without `--` has no occurrence of it at any position. */
  lemma NoDoubleDashAt(s: string, k: int)
    requires NoDoubleDash(s) && 0 <= k <= |s|
    ensures !OccursAt(s, "--", k)
  {
    if k + 2 <= |s| {
      assert s[k..k + 2][0] == s[k] && s[k..k + 2][1] == s[k + 1];
    }
  }

  /** `build--launcher` has no `+` when neither part has one. */
  lemma JoinedNoPlus(build: string, launcher: string)
    requires NoPlus(build) && NoPlus(launcher)
    ensures NoPlus(build + "--" + launcher)
  {
    var t := build + "--" + launcher;
    forall i | 0 <= i < |t|
      ensures t[i] != '+'
    {
      if i < |build| {
        assert t[i] == build[i];
      } else if i >= |build| + 2 {
        assert t[i] == launcher[i - |build| - 2];
      }
    }
  }

  /** The first two `+` pieces of `app + "+" + (tail + rest)`, where `rest` is empty or starts a new piece. */
  lemma PlusPieces(app: string, tail: string, rest: string)
    requires NoPlus(app) && NoPlus(tail)
    requires rest == [] || rest[0] == '+'
    ensures var pieces := Split(app + "+" + (tail + rest), "+");
      |pieces| >= 2 && pieces[0] == app && pieces[1] == tail
  {
    var tag := app + "+" + (tail + rest);
    JoinedAfter(app, "+", tail + rest);
    FindPlus(app, tail + rest);
    SplitAt(tag, "+", |app|);
    SecondPiece(tail, rest);
  }

  /** `a + sep + t + rest` read as `a + sep` followed by `t + rest`. */
  lemma JoinedAfter(a: string, sep: string, rest: string)
    ensures var s := a + sep + rest;
      s[..|a|] == a && s[|a| + |sep|..] == rest
  {
  }

  /** The first `+` piece of `tail + rest` is `tail`. */
  lemma SecondPiece(tail: string, rest: string)
    requires NoPlus(tail)
    requires rest == [] || rest[0] == '+'
    ensures Split(tail + rest, "+")[0] == tail
  {
    if rest == [] {
      assert tail + rest == tail;
      SplitNoPlus(tail);
    } else {
      assert tail + "+" + rest[1..] == tail + rest;
      FindPlus(tail, rest[1..]);
      SplitAt(tail + rest, "+", |tail|);
    }
  }

  /** The second `--` piece of `build--launcher`. */
  lemma DashPieces(build: string, launcher: string)
    requires NoDoubleDash(build) && (|build| == 0 || build[|build| - 1] != '-')
    requires NoDoubleDash(launcher)
    ensures var pieces := Split(build + "--" + launcher, "--");
      |pieces| >= 2 && pieces[1] == launcher
  {
    var t := build + "--" + launcher;
    FindDoubleDash(build, launcher);
    assert t[|build| + 2..] == launcher;
    SplitAt(t, "--", |build|);
    SplitNoDoubleDash(launcher);
  }

  /**
   * A tag of the release form `<app>+<build>--<launcher>`, optionally
   * followed by a further `+` part, splits into the app text with its `v`s
   * stripped and the launcher text.
   */
  lemma SplitTagOfRelease(app: string, build: string, launcher: string, rest: string)
    requires NoPlus(app) && NoPlus(build) && NoPlus(launcher)
    requires NoDoubleDash(build) && (|build| == 0 || build[|build| - 1] != '-')
    requires NoDoubleDash(launcher)
    requires rest == [] || rest[0] == '+'
    ensures SplitTag(app + "+" + build + "--" + launcher + rest) == Some(TagParts(StripChars(app, VChars), launcher))
  {
    var tail := build + "--" + launcher;
    TagShape(app, build, launcher, rest);
    JoinedNoPlus(build, launcher);
    PlusPieces(app, tail, rest);
    DashPieces(build, launcher);
  }

  /** The release tag regrouped around its first `+`. */
  lemma TagShape(app: string, build: string, launcher: string, rest: string)
    ensures app + "+" + build + "--" + launcher + rest == app + "+" + ((build + "--" + launcher) + rest)
  {
  }

  // ---------------------------------------------------------------- check

  /** The fields of the updater `check` and `install_update` use. */
  datatype Updater = Updater(
    localVersion: string, appVersion: string,
    repoVersion: Option<string>, downloadUrl: Option<string>,
    repoLauncher: Option<string>, repoApp: Option<string>,
    newApp: bool, newLauncher: bool)

  /** A fresh updater: the built-in versions, nothing fetched, no update. */
  function Init(launcherVersion: string, appVersion: string): (u: Updater)
    ensures !u.newApp && !u.newLauncher && u.repoVersion.None? && u.downloadUrl.None?
  {
    Updater(launcherVersion, appVersion, None, None, None, None, false, false)
  }

  /** The answer to the release request: the status, and the tag and asset URL when the body has them. */
  datatype Response = Response(status: int, tag: Option<string>, url: Option<string>)

  /** What `check` reads: the two VERSION files and the request; None where reading raises. */
  datatype CheckInputs = CheckInputs(launcherFile: Option<string>, appFile: Option<string>, response: Option<Response>)

  /** Reference: every step of `check` goes through. */
  predicate CheckSucceeds(vs: Versions, inp: CheckInputs) {
    inp.launcherFile.Some? && inp.appFile.Some? && inp.response.Some? &&
    inp.response.value.status == 200 && inp.response.value.tag.Some? && inp.response.value.url.Some? &&
    var parts := SplitTag(inp.response.value.tag.value);
    parts.Some? &&
    vs.parses(parts.value.app) && vs.parses(Strip(inp.appFile.value)) &&
    vs.parses(parts.value.launcher) && vs.parses(Strip(inp.launcherFile.value))
  }

  /**
   * `check`: read the two VERSION files, request the latest release, split
   * its tag and compare. Every exception is caught and returns False, with
   * the fields set before it kept.
   */
  function Check(u: Updater, vs: Versions, inp: CheckInputs): (res: (Updater, bool))
    ensures res.1 <==> CheckSucceeds(vs, inp)
    ensures res.1 ==> res.0.localVersion == Strip(inp.launcherFile.value) && res.0.appVersion == Strip(inp.appFile.value)
    ensures res.1 ==>
      var parts := SplitTag(inp.response.value.tag.value).value;
      res.0.repoVersion == inp.response.value.tag && res.0.downloadUrl == inp.response.value.url &&
      (res.0.newApp <==> vs.greater(parts.app, Strip(inp.appFile.value))) &&
      (res.0.newLauncher <==> vs.greater(parts.launcher, Strip(inp.launcherFile.value)))
    ensures !res.1 ==> res.0.newLauncher == u.newLauncher
    ensures inp.response.Some? && inp.response.value.status != 200 ==> !res.1
  {
    if inp.launcherFile.None? then (u, false)
    else
      var u1 := u.(localVersion := Strip(inp.launcherFile.value));
      if inp.appFile.None? then (u1, false)
      else
        var u2 := u1.(appVersion := Strip(inp.appFile.value));
        if inp.response.None? || inp.response.value.status != 200 then (u2, false)
        else
          var resp := inp.response.value;
          if resp.tag.None? then (u2, false)
          else
            var u3 := u2.(repoVersion := resp.tag);
            if resp.url.None? then (u3, false)
            else
              var u4 := u3.(downloadUrl := resp.url);
              match SplitTag(resp.tag.value)
              case None => (u4, false)
              case Some(parts) =>
                var u5 := u4.(repoLauncher := Some(parts.launcher), repoApp := Some(parts.app));
                match Newer(vs, parts.app, u5.appVersion)
                case None => (u5, false)
                case Some(na) =>
                  var u6 := u5.(newApp := na);
                  match Newer(vs, parts.launcher, u5.localVersion)
                  case None => (u6, false)
                  case Some(nl) => (u6.(newLauncher := nl), true)
  }

  /**
   * A launcher version that fails to parse after the app comparison went
   * through leaves `new_app_update` set although `check` returns False.
   */
  lemma CheckKeepsAppFlag(u: Updater, vs: Versions, inp: CheckInputs)
    requires inp.launcherFile.Some? && inp.appFile.Some? && inp.response.Some?
    requires inp.response.value.status == 200 && inp.response.value.tag.Some? && inp.response.value.url.Some?
    requires SplitTag(inp.response.value.tag.value).Some?
    requires vs.parses(SplitTag(inp.response.value.tag.value).value.app) && vs.parses(Strip(inp.appFile.value))
    requires !vs.parses(SplitTag(inp.response.value.tag.value).value.launcher)
    ensures var res := Check(u, vs, inp);
      !res.1 && (res.0.newApp <==> vs.greater(SplitTag(inp.response.value.tag.value).value.app, Strip(inp.appFile.value)))
  {
  }

  // ---------------------------------------------------------------- download

  /** `update_files`: only in the bundled app, and then as the file operations go. */
  function UpdateFiles(prod: bool, filesOk: bool): (ok: bool)
    ensures ok <==> prod && filesOk
  {
    if !prod then false else filesOk
  }

  /** What `download` did: its result, and whether it wrote `update.zip`. */
  datatype Downloaded = Downloaded(ok: bool, wroteZip: bool)

  /**
   * `download`: nothing without an app update or outside the bundled app;
   * otherwise request the asset (None when the request raises), write it on
   * status 200 and go on to `update_files`.
   */
  function Download(u: Updater, prod: bool, status: Option<int>, filesOk: bool): (d: Downloaded)
    ensures d.wroteZip <==> u.newApp && prod && status == Some(200)
    ensures d.ok <==> d.wroteZip && filesOk
    ensures !u.newApp || !prod ==> !d.ok && !d.wroteZip
  {
    if !u.newApp then Downloaded(false, false)
    else if !prod then Downloaded(false, false)
    else if status.None? then Downloaded(false, false)
    else if status.value == 200 then Downloaded(UpdateFiles(prod, filesOk), true)
    else Downloaded(false, false)
  }

  // ---------------------------------------------------------------- install

  /** The four branches of `install_update`. */
  datatype Branch = LauncherOnly | AppOnly | Both | NoBranch

  /** What `install_update` sets off, in order. */
  datatype Action =
    | SpawnUpdater(bundled: bool, cleanupFlag: string, useCached: bool)  // subprocess.Popen of the launcher updater
    | CallDownload(cleanup: bool)                                         // self.download(...)
    | CallUpdateFiles(cleanup: bool)                                      // self.update_files(...)

  /** The branch taken, the actions in order, and the result: None when `self.close()` raises, since the updater has no `close`. */
  datatype Install = Install(branch: Branch, actions: seq<Action>, result: Option<string>)

  /** Some action starts the launcher updater. */
  predicate Spawns(acts: seq<Action>) {
    acts != [] && (acts[0].SpawnUpdater? || Spawns(acts[1..]))
  }

  /** Some action calls `download`. */
  predicate Downloads(acts: seq<Action>) {
    acts != [] && (acts[0].CallDownload? || Downloads(acts[1..]))
  }

  /** `install_update`. */
  function InstallUpdate(u: Updater, prod: bool): (i: Install)
    ensures i.branch == LauncherOnly <==> u.newLauncher && !u.newApp
    ensures i.branch == AppOnly <==> u.newApp && !u.newLauncher
    ensures i.branch == Both <==> u.newApp && u.newLauncher
    ensures i.branch == NoBranch <==> !u.newApp && !u.newLauncher
    ensures i.result.None? <==> prod && u.newLauncher
    ensures i.result.Some? ==> i.result.value == "Done"
    ensures Spawns(i.actions) <==> u.newLauncher
    ensures Downloads(i.actions) <==> u.newApp && (prod || u.newLauncher)
    ensures forall k :: 0 <= k < |i.actions| && i.actions[k].SpawnUpdater? ==> i.actions[k].bundled == prod
  {
    if u.newLauncher && !u.newApp then
      if prod then Install(LauncherOnly, [SpawnUpdater(true, "--cleanup_downloads", false)], None)
      else Install(LauncherOnly, [SpawnUpdater(false, "--cleanup_downloads", false)], Some("Done"))
    else if u.newApp && !u.newLauncher then
      if prod then Install(AppOnly, [CallDownload(true)], Some("Done"))
      else Install(AppOnly, [], Some("Done"))
    else if u.newApp && u.newLauncher then
      if prod then
        Install(Both, [CallDownload(false), SpawnUpdater(true, "--cleanup-downloads", true)], None)
      else
        Install(Both, [CallDownload(false), CallUpdateFiles(false), SpawnUpdater(false, "--cleanup-downloads", true)], Some("Done"))
    else Install(NoBranch, [], Some("Done"))
  }

  /** After a `check` that fails from a fresh updater before any comparison, installing does nothing and returns "Done". */
  lemma FailedCheckInstallsNothing(launcherVersion: string, appVersion: string, vs: Versions, inp: CheckInputs, prod: bool)
    requires inp.response.None? || inp.response.value.status != 200
    ensures var u := Check(Init(launcherVersion, appVersion), vs, inp).0;
      var i := InstallUpdate(u, prod);
      i.branch == NoBranch && i.actions == [] && i.result == Some("Done")
  {
  }
}
