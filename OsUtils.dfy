// osUtils.getDisks (src/utils/osUtils.js): the list of disks the library
// may scan. On Windows it reads the output of `wmic logicaldisk get name`,
// elsewhere the text of /proc/mounts. Running the command and reading the
// file are inputs: None stands for the exception either one throws.

module OsUtils {
  import opened Common

  datatype Platform = Win32 | Unix

  // ---------------------------------------------------------------------
  // Windows: `wmic logicaldisk get name`
  // ---------------------------------------------------------------------

  /** `/^[A-Z]:$/i`: one ASCII letter of either case and a colon. */
  predicate IsDriveName(s: string) {
    |s| == 2 && ('A' <= s[0] <= 'Z' || 'a' <= s[0] <= 'z') && s[1] == ':'
  }

  /** A line that is not blank once trimmed. */
  predicate NonBlank(line: string) {
    Trim(line) != ""
  }

  /** `lines.map(line => line.trim()).filter(Boolean)`: the trimmed
      non-blank lines, in order. */
  function TrimmedLines(lines: seq<string>): (r: seq<string>)
    ensures |r| <= |lines|
    ensures forall x :: x in r ==> x != ""
    ensures MapsInOrder(r, lines, NonBlank, Trim)
  {
    if lines == [] then []
    else
      var init := lines[..|lines| - 1];
      var last := lines[|lines| - 1];
      var rest := TrimmedLines(init);
      MapsInOrderLast(rest, lines, NonBlank, Trim);
      if NonBlank(last) then rest + [Trim(last)] else (assert rest + [] == rest; rest)
  }

  /** The first trimmed line is the first non-blank line, trimmed. */
  lemma TrimmedLinesHead(lines: seq<string>) returns (i: int)
    requires TrimmedLines(lines) != []
    ensures 0 <= i < |lines| && TrimmedLines(lines)[0] == Trim(lines[i])
    ensures forall j :: 0 <= j < i ==> Trim(lines[j]) == ""
  {
    var idx := Positions(lines, NonBlank);
    i := idx[0];
    forall j | 0 <= j < i
      ensures Trim(lines[j]) == ""
    {
      BeforeFirstPosition(lines, NonBlank, j);
    }
  }

  lemma TrimmedLinesMembers(lines: seq<string>)
    ensures forall x :: x in TrimmedLines(lines) <==> x != "" && exists l :: l in lines && Trim(l) == x
  {
    MapsInOrderMembers(TrimmedLines(lines), lines, NonBlank, Trim);
  }

  /** `disk + '\\'`. */
  function DriveRoot(d: string): string {
    d + "\\"
  }

  lemma DriveRootInjective(d: string, e: string)
    requires DriveRoot(d) == DriveRoot(e)
    ensures d == e
  {
    assert |d| == |e|;
    assert d == DriveRoot(d)[..|d|];
  }

  /** `.filter(disk => disk.match(/^[A-Z]:$/i)).map(disk => disk + '\\')`. */
  function DriveRoots(lines: seq<string>): (r: seq<string>)
    ensures |r| <= |lines|
    ensures forall x :: x in r ==> exists d :: IsDriveName(d) && x == DriveRoot(d)
  {
    if lines == [] then []
    else
      var rest := DriveRoots(lines[1..]);
      if IsDriveName(lines[0]) then [DriveRoot(lines[0])] + rest else rest
  }

  lemma {:induction false} DriveRootsMembers(lines: seq<string>, d: string)
    ensures DriveRoot(d) in DriveRoots(lines) <==> d in lines && IsDriveName(d)
  {
    if lines != [] {
      DriveRootsMembers(lines[1..], d);
      if DriveRoot(d) == DriveRoot(lines[0]) {
        DriveRootInjective(d, lines[0]);
      }
    }
  }

  /** The Windows branch: the trimmed non-blank lines without the first
      (the column header), the drive names among them with a backslash
      appended; no disks when the command fails. */
  function WindowsDisks(output: Option<string>): seq<string> {
    if output.None? then [] else DriveRoots(Rest(OutputLines(output.value)))
  }

  /** The trimmed non-blank lines of the command output. */
  function OutputLines(output: string): seq<string> {
    TrimmedLines(Split(output, '\n'))
  }

  /** `lines.slice(1)`. */
  function Rest(lines: seq<string>): (r: seq<string>)
    ensures lines != [] ==> r == lines[1..]
    ensures lines == [] ==> r == []
  {
    if lines == [] then [] else lines[1..]
  }

  /** Every disk reported on Windows is a drive root such as `C:\`, and a
      drive is reported exactly when its name is a line of the output
      after the first non-blank one. */
  lemma WindowsDisksSpec(output: string, d: string)
    ensures forall x :: x in WindowsDisks(Some(output)) ==> exists e :: IsDriveName(e) && x == DriveRoot(e)
    ensures DriveRoot(d) in WindowsDisks(Some(output)) <==> d in Rest(OutputLines(output)) && IsDriveName(d)
  {
    DriveRootsMembers(Rest(OutputLines(output)), d);
  }

  /** The first non-blank line (the column header) is never reported,
      even when it reads like a drive name. */
  lemma WindowsHeaderDropped(output: string, d: string)
    requires OutputLines(output) != [] && OutputLines(output)[0] == d
    requires d !in OutputLines(output)[1..]
    ensures DriveRoot(d) !in WindowsDisks(Some(output))
    ensures |WindowsDisks(Some(output))| < |OutputLines(output)|
  {
    WindowsDisksSpec(output, d);
  }

  // ---------------------------------------------------------------------
  // Elsewhere: /proc/mounts
  // ---------------------------------------------------------------------

  /** `/^\/[^/]+$/`: a slash and one or more characters, none a slash. */
  predicate IsTopLevel(p: string) {
    |p| >= 2 && p[0] == '/' && '/' !in p[1..]
  }

  /** The mount points the library treats as disks. */
  predicate IsDiskMount(p: string) {
    StartsWith(p, "/media/") || StartsWith(p, "/mnt/") || (IsTopLevel(p) && p != "/")
  }

  /** The second space-separated field of a line, when it has one. */
  function MountPoint(line: string): Option<string> {
    var parts := Split(line, ' ');
    if |parts| >= 2 then Some(parts[1]) else None
  }

  /** The mount points the forEach pushes, in line order. */
  function KeptMounts(lines: seq<string>): (r: seq<string>)
    ensures forall p :: p in r ==> IsDiskMount(p)
  {
    if lines == [] then []
    else
      var init := KeptMounts(lines[..|lines| - 1]);
      var mp := MountPoint(lines[|lines| - 1]);
      if mp.Some? && IsDiskMount(mp.value) then init + [mp.value] else init
  }

  lemma {:induction false} KeptMountsMembers(lines: seq<string>)
    ensures forall p :: p in KeptMounts(lines) <==> IsDiskMount(p) && exists l :: l in lines && MountPoint(l) == Some(p)
  {
    if lines != [] {
      var init := lines[..|lines| - 1];
      KeptMountsMembers(init);
      assert forall l :: l in lines <==> l in init || l == lines[|lines| - 1] by {
        assert lines == init + [lines[|lines| - 1]];
      }
    }
  }

  /** The Unix branch: '/' and the disk mount points, each once, in order
      of first appearance; only '/' when the file cannot be read. */
  function UnixDisks(mounts: Option<string>): seq<string> {
    if mounts.None? then ["/"]
    else Dedup(["/"] + KeptMounts(Split(mounts.value, '\n')))
  }

  /** The Unix result starts with '/', has no repeats, holds exactly '/'
      and the second fields that look like disk mount points, and lists
      them in the order in which the forEach first pushed them. */
  lemma UnixDisksSpec(mounts: Option<string>)
    ensures var r := UnixDisks(mounts);
      && r != [] && r[0] == "/"
      && NoDuplicates(r)
      && (forall p :: p in r <==> p == "/" || (mounts.Some? && IsDiskMount(p) &&
                                              exists l :: l in Split(mounts.value, '\n') && MountPoint(l) == Some(p)))
      && (mounts.Some? ==>
            var pushed := ["/"] + KeptMounts(Split(mounts.value, '\n'));
            forall i, j :: 0 <= i < j < |r| ==> IndexOf(pushed, r[i]) < IndexOf(pushed, r[j]))
  {
    if mounts.Some? {
      var found := ["/"] + KeptMounts(Split(mounts.value, '\n'));
      DedupKeepsHead(found);
      KeptMountsMembers(Split(mounts.value, '\n'));
    }
  }

  /** The forEach over the lines of /proc/mounts. */
  method CollectMounts(lines: seq<string>) returns (disks: seq<string>)
    ensures disks == ["/"] + KeptMounts(lines)
  {
    disks := ["/"];
    for i := 0 to |lines|
      invariant disks == ["/"] + KeptMounts(lines[..i])
    {
      assert lines[..i + 1][..i] == lines[..i];
      var parts := Split(lines[i], ' ');
      if |parts| >= 2 {
        var mountPoint := parts[1];
        if IsDiskMount(mountPoint) {
          disks := disks + [mountPoint];
        }
      }
    }
    assert lines[..|lines|] == lines;
  }

  /** getDisks. */
  method GetDisks(platform: Platform, wmicOutput: Option<string>, mounts: Option<string>) returns (disks: seq<string>)
    ensures platform == Win32 ==> disks == WindowsDisks(wmicOutput)
    ensures platform == Unix ==> disks == UnixDisks(mounts)
  {
    if platform == Win32 {
      if wmicOutput.None? {
        return [];
      }
      var lines := OutputLines(wmicOutput.value);
      disks := DriveRoots(Rest(lines));
    } else {
      if mounts.None? {
        return ["/"];
      }
      var found := CollectMounts(Split(mounts.value, '\n'));
      disks := Dedup(found);
    }
  }
}
