/** The private overlay: which directories it creates and in which order, what reading it back over the public
    archive gives, and the per-asset check of the verifier.
    boot/assemble_private_wifi_payload.py:42, 126-163, 324-332. */
module Overlay {
  import opened Common
  import opened Cpio

  const DIR_MODE := 0x41ed
  const FILE_MODE := 0x81a4

  function FwDir(): Bytes {
    "lib/" + "firmware/brcm"
  }

  /** The path of a firmware file. */
  function FwPath(name: Bytes): Bytes {
    FwDir() + "/" + name
  }

  /** A firmware file, under `FwDir`. */
  datatype File = File(name: Bytes, data: Bytes)

  /** An entry anywhere in the tree. */
  datatype Extra = Extra(path: Bytes, mode: nat, data: Bytes)

  // ---- Directories ------------------------------------------------------------------------------------------

  predicate NoSlash(s: Bytes) {
    forall i :: 0 <= i < |s| ==> s[i] != '/'
  }

  /** Names are relative. */
  predicate IsRelative(path: Bytes) {
    path == "" || path[0] != '/'
  }

  /** Every directory on the way to `path` is listed. */
  predicate AncestorsIn(path: Bytes, dirs: seq<Bytes>) {
    forall i :: 0 <= i < |path| && path[i] == '/' ==> path[..i] in dirs
  }

  /** Every listed directory comes after the directories on the way to it, and no directory twice. */
  predicate DirsOk(dirs: seq<Bytes>) {
    && (forall k :: 0 <= k < |dirs| ==> AncestorsIn(dirs[k], dirs[..k]))
    && (forall j, k :: 0 <= j < k < |dirs| ==> dirs[j] != dirs[k])
  }

  function FirstSlash(s: Bytes): (i: nat)
    ensures i <= |s| && NoSlash(s[..i]) && (i < |s| ==> s[i] == '/')
  {
    if s == "" || s[0] == '/' then 0
    else
      var i := 1 + FirstSlash(s[1..]);
      assert s[..i] == [s[0]] + s[1..][..i - 1];
      i
  }

  /** `path.split("/")` */
  function Split(s: Bytes): (parts: seq<Bytes>)
    ensures |parts| >= 1
    decreases |s|
  {
    var i := FirstSlash(s);
    if i == |s| then [s] else [s[..i]] + Split(s[i + 1..])
  }

  lemma SplitFirst(s: Bytes)
    ensures var i := FirstSlash(s);
            if i == |s| then Split(s) == [s] else Split(s) == [s[..i]] + Split(s[i + 1..])
  {
  }

  lemma AddedOk(dirs: seq<Bytes>, d: Bytes)
    requires DirsOk(dirs) && AncestorsIn(d, dirs) && d !in dirs
    ensures DirsOk(dirs + [d])
  {
    var all := dirs + [d];
    forall k | 0 <= k < |all| ensures AncestorsIn(all[k], all[..k]) {
      assert all[..k] == dirs[..k];
      assert k == |dirs| ==> dirs[..k] == dirs;
    }
  }

  lemma AncestorsStay(path: Bytes, dirs: seq<Bytes>, more: seq<Bytes>)
    requires AncestorsIn(path, dirs)
    ensures AncestorsIn(path, dirs + more)
  {
  }

  /** Where the split stands: parts from `k` on are those of the path from `n` on. */
  ghost predicate SplitAt(path: Bytes, n: nat, parts: seq<Bytes>, k: nat) {
    n <= |path| && k < |parts| && Split(path[n..]) == parts[k..]
  }

  lemma SplitNext(path: Bytes, n: nat, parts: seq<Bytes>, k: nat)
    requires SplitAt(path, n, parts, k) && k + 1 < |parts|
    ensures var e := n + |parts[k]|;
            e < |path| && path[e] == '/' && parts[k] == path[n..e] && NoSlash(parts[k]) && SplitAt(path, e + 1, parts, k + 1)
  {
    hide Split;
    var rest := path[n..];
    SplitFirst(rest);
    var f := FirstSlash(rest);
    assert |parts[k..]| >= 2 && parts[k..][0] == parts[k];
    assert f < |rest|;
    assert parts[k] == rest[..f] == path[n..n + f];
    assert rest[f + 1..] == path[n + f + 1..] && parts[k..][1..] == parts[k + 1..];
  }

  lemma SplitDone(path: Bytes, n: nat, parts: seq<Bytes>, k: nat)
    requires SplitAt(path, n, parts, k) && k + 1 == |parts|
    ensures NoSlash(path[n..])
  {
    hide Split;
    SplitFirst(path[n..]);
    assert |parts[k..]| == 1;
    assert path[n..][..|path| - n] == path[n..];
  }

  /** All directories named by slashes below `n` are listed. */
  predicate ListedBelow(path: Bytes, n: nat, dirs: seq<Bytes>) {
    forall i :: 0 <= i < n && i < |path| && path[i] == '/' ==> path[..i] in dirs
  }

  lemma AncestorsOfPrefix(path: Bytes, n: nat, e: nat, dirs: seq<Bytes>)
    requires n <= e <= |path| && NoSlash(path[n..e]) && ListedBelow(path, n, dirs)
    ensures AncestorsIn(path[..e], dirs)
  {
    assert forall i :: n <= i < e ==> path[i] == path[n..e][i - n];
    forall i | 0 <= i < e && path[..e][i] == '/' ensures path[..e][..i] in dirs {
      assert path[..e][..i] == path[..i];
    }
  }

  lemma ListedNext(path: Bytes, n: nat, e: nat, dirs: seq<Bytes>)
    requires n <= e < |path| && NoSlash(path[n..e]) && ListedBelow(path, n, dirs) && path[..e] in dirs
    ensures ListedBelow(path, e + 1, dirs)
  {
    assert forall i :: n <= i < e ==> path[i] == path[n..e][i - n];
  }

  /** Where the loop stands: `parent` is the path up to the slash before `n`, or nothing yet. */
  ghost predicate ParentAt(path: Bytes, parent: Bytes, n: nat, k: nat) {
    && |parent| <= |path| && parent == path[..|parent|]
    && if k == 0 then parent == "" && n == 0 else 1 <= |parent| < |path| && path[|parent|] == '/' && n == |parent| + 1
  }

  lemma ParentNext(path: Bytes, parent: Bytes, n: nat, parts: seq<Bytes>, k: nat)
    requires IsRelative(path) && ParentAt(path, parent, n, k) && SplitAt(path, n, parts, k) && k + 1 < |parts|
    ensures var e, next := n + |parts[k]|, Below(parent, parts[k]);
            && e < |path| && NoSlash(path[n..e]) && next == path[..e]
            && ParentAt(path, next, e + 1, k + 1) && SplitAt(path, e + 1, parts, k + 1)
  {
    hide SplitAt, NoSlash;
    SplitNext(path, n, parts, k);
    Grown(path, n, |parts[k]|);
  }

  function WithDir(dirs: seq<Bytes>, d: Bytes): seq<Bytes> {
    if d in dirs then dirs else dirs + [d]
  }

  lemma StageDir(path: Bytes, n: nat, e: nat, start: seq<Bytes>, dirs: seq<Bytes>)
    requires n <= e < |path| && NoSlash(path[n..e]) && ListedBelow(path, n, dirs) && DirsOk(dirs) && start <= dirs
    requires AncestorsIn(path[..e], dirs)
    ensures var r := WithDir(dirs, path[..e]); DirsOk(r) && start <= r && ListedBelow(path, e + 1, r)
  {
    hide DirsOk, NoSlash, AncestorsIn, ListedBelow;
    var d := path[..e];
    var r := WithDir(dirs, d);
    if d !in dirs {
      AddedOk(dirs, d);
    }
    ListedStays(path, n, dirs, r);
    ListedNext(path, n, e, r);
  }

  /** The loop over one extra entry: its missing directories are added, outermost first. */
  method AddParents(dirs: seq<Bytes>, path: Bytes) returns (r: seq<Bytes>)
    requires DirsOk(dirs) && IsRelative(path)
    ensures DirsOk(r) && dirs <= r && AncestorsIn(path, r)
  {
    hide Split, DirsOk, NoSlash, SplitAt, AncestorsIn, ListedBelow, ParentAt, WithDir, IsRelative, Below;
    r := dirs;
    var parts := Split(path);
    var parent := "";
    ghost var n: nat := 0;
    SplitStart(path, parts, r);
    var k := 0;
    while k < |parts| - 1
      invariant 0 <= k < |parts| && n <= |path| && DirsOk(r) && dirs <= r
      invariant ParentAt(path, parent, n, k) && SplitAt(path, n, parts, k) && ListedBelow(path, n, r)
    {
      ParentNext(path, parent, n, parts, k);
      ghost var e := n + |parts[k]|;
      parent := Below(parent, parts[k]);
      AncestorsOfPrefix(path, n, e, r);
      StageDir(path, n, e, dirs, r);
      r := WithDir(r, parent);
      n := e + 1;
      k := k + 1;
    }
    AllListed(path, n, parts, k, r);
  }

  lemma AllListed(path: Bytes, n: nat, parts: seq<Bytes>, k: nat, dirs: seq<Bytes>)
    requires SplitAt(path, n, parts, k) && k + 1 == |parts| && ListedBelow(path, n, dirs)
    ensures AncestorsIn(path, dirs)
  {
    hide NoSlash, AncestorsIn, ListedBelow;
    SplitDone(path, n, parts, k);
    assert path[n..|path|] == path[n..] && path[..|path|] == path;
    AncestorsOfPrefix(path, n, |path|, dirs);
  }

  /** `f"{parent}/{part}" if parent else part` */
  function Below(parent: Bytes, part: Bytes): Bytes {
    if parent != "" then parent + "/" + part else part
  }

  lemma SplitStart(path: Bytes, parts: seq<Bytes>, dirs: seq<Bytes>)
    requires parts == Split(path)
    ensures SplitAt(path, 0, parts, 0) && ListedBelow(path, 0, dirs) && ParentAt(path, "", 0, 0)
  {
    hide Split;
    assert path[0..] == path && parts[0..] == parts;
  }

  lemma ListedStays(path: Bytes, n: nat, dirs: seq<Bytes>, more: seq<Bytes>)
    requires ListedBelow(path, n, dirs) && dirs <= more
    ensures ListedBelow(path, n, more)
  {
    assert forall d :: d in dirs ==> d in more by {
      assert more == dirs + more[|dirs|..];
    }
  }

  lemma Grown(path: Bytes, n: nat, f: nat)
    requires n + f <= |path|
    ensures n > 0 ==> path[..n - 1] + [path[n - 1]] + path[n..n + f] == path[..n + f]
    ensures path[0..f] == path[..f]
  {
  }

  // ---- The overlay ------------------------------------------------------------------------------------------

  function DirEntries(dirs: seq<Bytes>): seq<Entry> {
    seq(|dirs|, i requires 0 <= i < |dirs| => Entry(dirs[i], DIR_MODE, "", 2))
  }

  function FileEntries(files: seq<File>): seq<Entry> {
    seq(|files|, i requires 0 <= i < |files| => Entry(FwPath(files[i].name), FILE_MODE, files[i].data, 1))
  }

  function ExtraEntries(extra: seq<Extra>): seq<Entry> {
    seq(|extra|, i requires 0 <= i < |extra| => Entry(extra[i].path, extra[i].mode, extra[i].data, 1))
  }

  function EntriesOf(dirs: seq<Bytes>, files: seq<File>, extra: seq<Extra>): seq<Entry> {
    DirEntries(dirs) + FileEntries(files) + ExtraEntries(extra) + [Entry(Trailer(), 0, "", 1)]
  }

  predicate HasFwDir(dirs: seq<Bytes>) {
    |dirs| >= 3 && dirs[0] == "lib" && dirs[1] == "lib/firmware" && dirs[2] == FwDir()
  }

  lemma FwDirsOk()
    ensures DirsOk(["lib", "lib/firmware", FwDir()])
  {
    var a, b, c := "lib", "lib/firmware", FwDir();
    var dirs := [a, b, c];
    assert |a| == 3 && |b| == 12 && |c| == 17;
    assert b[3] == '/' && b[..3] == a;
    assert c[3] == '/' && c[..3] == a && c[12] == '/' && c[..12] == b;
    assert dirs[..0] == [] && dirs[..1] == [a] && dirs[..2] == [a, b];
    assert AncestorsIn(a, []);
    assert AncestorsIn(b, [a]);
    assert AncestorsIn(c, [a, b]);
  }

  lemma {:induction false} ArchiveAppend(a: seq<Entry>, b: seq<Entry>)
    ensures Archive(a + b) == Archive(a) + Archive(b)
    decreases |a|
  {
    hide NewcEntry;
    if a == [] {
      assert a + b == b;
    } else {
      ArchiveAppend(a[1..], b);
      assert (a + b)[1..] == a[1..] + b;
    }
  }

  lemma ArchiveNext(es: seq<Entry>, i: nat)
    requires i < |es|
    ensures Archive(es[..i + 1]) == Archive(es[..i]) + NewcEntry(es[i])
  {
    hide NewcEntry;
    assert es[..i + 1] == es[..i] + [es[i]];
    ArchiveAppend(es[..i], [es[i]]);
    assert [es[i]][1..] == [];
  }

  method WriteEntries(es: seq<Entry>) returns (out: Bytes)
    ensures out == Archive(es)
  {
    hide NewcEntry, Archive;
    out := "";
    ArchiveEmpty(es[..0]);
    var i := 0;
    while i < |es|
      invariant 0 <= i <= |es| && out == Archive(es[..i])
    {
      ArchiveNext(es, i);
      out := out + NewcEntry(es[i]);
      i := i + 1;
    }
    assert es[..|es|] == es;
  }

  lemma ArchiveEmpty(es: seq<Entry>)
    requires es == []
    ensures Archive(es) == ""
  {
  }

  /** `build_overlay`: the archive of the directories, the files, the extras and the trailer, in that order. */
  method BuildOverlay(files: seq<File>, extra: seq<Extra>) returns (out: Bytes, dirs: seq<Bytes>)
    requires forall i :: 0 <= i < |extra| ==> IsRelative(extra[i].path)
    ensures out == Archive(EntriesOf(dirs, files, extra))
    ensures DirsOk(dirs) && HasFwDir(dirs)
    ensures forall i :: 0 <= i < |extra| ==> AncestorsIn(extra[i].path, dirs)
  {
    hide DirsOk, Archive, AncestorsIn;
    FwDirsOk();
    dirs := ["lib", "lib/firmware", FwDir()];
    ghost var first := dirs;
    var k := 0;
    while k < |extra|
      invariant 0 <= k <= |extra| && DirsOk(dirs) && first <= dirs
      invariant forall i :: 0 <= i < k ==> AncestorsIn(extra[i].path, dirs)
    {
      ghost var was := dirs;
      dirs := AddParents(dirs, extra[k].path);
      forall i | 0 <= i < k ensures AncestorsIn(extra[i].path, dirs) {
        AncestorsStay(extra[i].path, was, dirs[|was|..]);
        assert was + dirs[|was|..] == dirs;
      }
      k := k + 1;
    }
    assert dirs[0] == first[0] && dirs[1] == first[1] && dirs[2] == first[2];
    out := WriteEntries(EntriesOf(dirs, files, extra));
  }

  // ---- What the overlay holds ---------------------------------------------------------------------------------

  /** Every directory on the way to any member is a member before it. */
  lemma ParentsFirst(dirs: seq<Bytes>, files: seq<File>, extra: seq<Extra>, k: nat, i: nat)
    requires DirsOk(dirs) && HasFwDir(dirs)
    requires forall j :: 0 <= j < |files| ==> NoSlash(files[j].name)
    requires forall j :: 0 <= j < |extra| ==> AncestorsIn(extra[j].path, dirs)
    requires k < |EntriesOf(dirs, files, extra)|
    requires var name := EntriesOf(dirs, files, extra)[k].name; i < |name| && name[i] == '/'
    ensures var es := EntriesOf(dirs, files, extra);
            exists j :: 0 <= j < k && es[j].name == es[k].name[..i] && es[j].mode == DIR_MODE
  {
    var es := EntriesOf(dirs, files, extra);
    var name := es[k].name;
    assert forall j :: 0 <= j < |dirs| ==> es[j].name == dirs[j] && es[j].mode == DIR_MODE;
    if k < |dirs| {
      assert name[..i] in dirs[..k];
      var j :| 0 <= j < k && dirs[..k][j] == name[..i];
      assert es[j].name == name[..i];
    } else {
      if k < |dirs| + |files| {
        FilesUnderFwDir(files[k - |dirs|].name, dirs);
      } else if k < |dirs| + |files| + |extra| {
        assert name == extra[k - |dirs| - |files|].path;
      } else {
        TrailerHasNoSlash();
      }
      var j :| 0 <= j < |dirs| && dirs[j] == name[..i];
      assert es[j].name == name[..i];
    }
  }

  lemma TrailerHasNoSlash()
    ensures NoSlash(Trailer())
  {
  }

  lemma FilesUnderFwDir(name: Bytes, dirs: seq<Bytes>)
    requires NoSlash(name) && HasFwDir(dirs)
    ensures AncestorsIn(FwPath(name), dirs)
  {
    var p := FwPath(name);
    assert |FwDir()| == 17 && p[..17] == FwDir();
    assert FwDir()[..3] == "lib" && FwDir()[..12] == "lib/firmware";
    assert forall i :: 17 < i < |p| ==> p[i] == name[i - 18];
    forall i | 0 <= i < |p| && p[i] == '/' ensures p[..i] in dirs {
      assert i <= 17;
      if i < 17 {
        assert p[i] == FwDir()[i];
        assert i == 3 || i == 12;
        assert p[..i] == FwDir()[..i];
      }
    }
  }

  /** A name the reader reports as it was written. */
  predicate Reportable(name: Bytes) {
    Relative(name) == name && name != Trailer()
  }

  lemma {:induction false} PutAllAppend(m: Entries, a: seq<Entry>, b: seq<Entry>)
    ensures PutAll(m, a + b) == PutAll(PutAll(m, a), b)
    decreases |a|
  {
    hide Put, Relative;
    if a == [] {
      assert a + b == b;
    } else {
      PutAllAppend(Put(m, Relative(a[0].name), a[0].mode, a[0].data), a[1..], b);
      assert (a + b)[1..] == a[1..] + b;
    }
  }

  /** A member that no later one overrides is what the map holds under its name. */
  lemma {:induction false} LastWins(m: Entries, es: seq<Entry>, i: nat)
    requires i < |es| && Reportable(es[i].name)
    requires forall j :: i < j < |es| ==> Relative(es[j].name) != es[i].name
    ensures var r := PutAll(m, es); es[i].name in r && r[es[i].name] == (es[i].mode, es[i].data)
    decreases |es|
  {
    hide Relative;
    var m1 := Put(m, Relative(es[0].name), es[0].mode, es[0].data);
    if i > 0 {
      LastWins(m1, es[1..], i - 1);
    } else {
      Untouched(m1, es[1..], es[0].name);
    }
  }

  lemma {:induction false} Untouched(m: Entries, es: seq<Entry>, name: Bytes)
    requires name in m && forall j :: 0 <= j < |es| ==> Relative(es[j].name) != name
    ensures name in PutAll(m, es) && PutAll(m, es)[name] == m[name]
    decreases |es|
  {
    hide Relative;
    if es != [] {
      Untouched(Put(m, Relative(es[0].name), es[0].mode, es[0].data), es[1..], name);
    }
  }

  /** Nothing is in the map but what was there and what was written. */
  lemma {:induction false} NothingElse(m: Entries, es: seq<Entry>, name: Bytes)
    requires name in PutAll(m, es)
    ensures name in m || exists i :: 0 <= i < |es| && Relative(es[i].name) == name && name != Trailer()
    decreases |es|
  {
    hide Relative;
    if es != [] {
      var m1 := Put(m, Relative(es[0].name), es[0].mode, es[0].data);
      NothingElse(m1, es[1..], name);
      if name !in m1 {
        var i :| 0 <= i < |es[1..]| && Relative(es[1..][i].name) == name && name != Trailer();
        assert Relative(es[i + 1].name) == name;
      }
    }
  }

  /** The members of an overlay: reportable distinct names, then the trailer. */
  predicate OverlayNames(es: seq<Entry>) {
    && es != [] && es[|es| - 1].name == Trailer()
    && (forall i :: 0 <= i < |es| - 1 ==> Reportable(es[i].name))
    && (forall i, j :: 0 <= i < j < |es| - 1 ==> es[i].name != es[j].name)
  }

  lemma LaterDiffers(es: seq<Entry>, i: nat, j: nat)
    requires OverlayNames(es) && i < |es| - 1 && i < j < |es|
    ensures Reportable(es[i].name) && Relative(es[j].name) != es[i].name
  {
    hide Relative, Trailer;
    TrailerIsPlain();
    if j < |es| - 1 {
      assert Reportable(es[j].name);
    }
  }

  lemma MemberPresent(es: seq<Entry>, i: nat)
    requires OverlayNames(es) && i < |es| - 1
    ensures var r := PutAll(map[], es); es[i].name in r && r[es[i].name] == (es[i].mode, es[i].data)
  {
    hide PutAll, Relative, OverlayNames, Reportable;
    LaterDiffers(es, i, |es| - 1);
    forall j | i < j < |es| ensures Relative(es[j].name) != es[i].name {
      LaterDiffers(es, i, j);
    }
    LastWins(map[], es, i);
  }

  lemma MemberName(es: seq<Entry>, i: nat)
    requires OverlayNames(es) && i < |es| && Relative(es[i].name) != Trailer()
    ensures i < |es| - 1 && es[i].name == Relative(es[i].name)
  {
    hide Relative, Trailer;
    TrailerIsPlain();
    if i < |es| - 1 {
      assert Reportable(es[i].name);
    }
  }

  lemma OnlyMembers(es: seq<Entry>, name: Bytes)
    requires OverlayNames(es) && name in PutAll(map[], es)
    ensures exists i :: 0 <= i < |es| - 1 && es[i].name == name
  {
    hide PutAll, Relative, Trailer, OverlayNames;
    NothingElse(map[], es, name);
    var i :| 0 <= i < |es| && Relative(es[i].name) == name && name != Trailer();
    MemberName(es, i);
  }

  /** Reading the overlay back: with distinct reportable names, exactly the members, each with its mode and
      bytes. */
  lemma OverlayReadBack(es: seq<Entry>)
    requires forall i :: 0 <= i < |es| ==> Writable(es[i])
    requires OverlayNames(es)
    ensures var w := Walk(Archive(es), 0, map[]);
            && w.Some?
            && (forall i :: 0 <= i < |es| - 1 ==> es[i].name in w.value.0 && w.value.0[es[i].name] == (es[i].mode, es[i].data))
            && (forall name :: name in w.value.0 ==> exists i :: 0 <= i < |es| - 1 && es[i].name == name)
  {
    hide Walk, Archive, PutAll, Writable, OverlayNames;
    RoundTrip(es);
    var r := PutAll(map[], es);
    forall i | 0 <= i < |es| - 1 ensures es[i].name in r && r[es[i].name] == (es[i].mode, es[i].data) {
      MemberPresent(es, i);
    }
    forall name | name in r ensures exists i :: 0 <= i < |es| - 1 && es[i].name == name {
      OnlyMembers(es, name);
    }
  }

  lemma TrailerIsPlain()
    ensures Relative(Trailer()) == Trailer()
  {
  }

  /** What the verifier finds of a staged asset. */
  datatype AssetCheck = Fine | Missing | IsEmpty | Differs

  /** The asset part of `verify`; `digest` stands for SHA-256. */
  function CheckAsset(entries: Entries, staged: Bytes, recorded: int, digest: Bytes -> int): AssetCheck {
    var path := FwPath(staged);
    if path !in entries then Missing
    else if entries[path].1 == "" then IsEmpty
    else if digest(entries[path].1) != recorded then Differs
    else Fine
  }

  lemma FwPathReportable(name: Bytes)
    ensures Reportable(FwPath(name))
  {
    var p := FwPath(name);
    assert p[0] == 'l' && Trailer()[0] == 'T';
  }

  /** On a composed image every nonempty asset passes the check, whatever the base holds, unless a later entry
      of the overlay has its very path. */
  lemma AssetsPass(base: Bytes, dirs: seq<Bytes>, files: seq<File>, extra: seq<Extra>, i: nat, digest: Bytes -> int)
    requires var es := EntriesOf(dirs, files, extra); forall j :: 0 <= j < |es| ==> Writable(es[j])
    requires Aligned(|base|) && Walk(base, 0, map[]).Some? && Walk(base, 0, map[]).value.1 == |base|
    requires i < |files| && files[i].data != ""
    requires forall j :: i < j < |files| ==> files[j].name != files[i].name
    requires forall j :: 0 <= j < |extra| ==> Relative(extra[j].path) != FwPath(files[i].name)
    ensures var image := base + Archive(EntriesOf(dirs, files, extra));
            && Walk(image, 0, map[]).Some?
            && CheckAsset(Walk(image, 0, map[]).value.0, files[i].name, digest(files[i].data), digest) == Fine
  {
    hide Walk, Archive, PutAll, Writable, Aligned, EntriesOf, FwPath, Relative;
    var es := EntriesOf(dirs, files, extra);
    OverlayOverrides(base, es);
    AssetStaged(dirs, files, extra, i);
  }

  /** The overlay's own map has the asset under its path. */
  lemma AssetStaged(dirs: seq<Bytes>, files: seq<File>, extra: seq<Extra>, i: nat)
    requires i < |files|
    requires forall j :: i < j < |files| ==> files[j].name != files[i].name
    requires forall j :: 0 <= j < |extra| ==> Relative(extra[j].path) != FwPath(files[i].name)
    ensures var r, path := PutAll(map[], EntriesOf(dirs, files, extra)), FwPath(files[i].name);
            path in r && r[path] == (FILE_MODE, files[i].data)
  {
    hide PutAll, Relative, Trailer, FwPath;
    var es := EntriesOf(dirs, files, extra);
    var k := |dirs| + i;
    var path := FwPath(files[i].name);
    assert es[k] == Entry(path, FILE_MODE, files[i].data, 1);
    FwPathReportable(files[i].name);
    TrailerIsPlain();
    forall j | k < j < |es| ensures Relative(es[j].name) != path {
      if j < |dirs| + |files| {
        FwPathReportable(files[j - |dirs|].name);
        SamePath(files[j - |dirs|].name, files[i].name);
      } else if j < |dirs| + |files| + |extra| {
        assert es[j].name == extra[j - |dirs| - |files|].path;
      }
    }
    LastWins(map[], es, k);
  }

  lemma SamePath(a: Bytes, b: Bytes)
    ensures FwPath(a) == FwPath(b) ==> a == b
  {
    if FwPath(a) == FwPath(b) {
      assert |FwDir() + "/"| == 18;
      assert FwPath(a)[18..] == a && FwPath(b)[18..] == b;
    }
  }
}
