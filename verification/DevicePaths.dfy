/**
 From a volume label to a block device (pkg/device-manager/device.go): the candidate
 by-id paths, built in an array and suffixed in place, and the search for the first
 of them that exists.
 */
module DevicePaths {
  import opened GoText

  const DIRECTORY := "/dev/disk/by-id/"
  const LINODE_PREFIX := "linode-"
  const SCSI_PREFIX := "scsi-0Linode_Volume_"
  const PARTITION_SUFFIX := "-part"

  datatype Stat = Present | Missing | Unreadable

  datatype Search = Found(path: string) | NoneExists | SearchFailed

  predicate SlashFree(s: string) {
    '/' !in s
  }

  function Split(s: string): (parts: seq<string>)
    ensures parts != []
  {
    if s == "" then [""]
    else if s[0] == '/' then [""] + Split(s[1..])
    else var rest := Split(s[1..]); [[s[0]] + rest[0]] + rest[1..]
  }

  // The component walk of path.Clean on a rooted path.
  function Walk(stack: seq<string>, parts: seq<string>): seq<string>
    decreases |parts|
  {
    if parts == [] then stack
    else if parts[0] == "" || parts[0] == "." then Walk(stack, parts[1..])
    else if parts[0] == ".." then Walk(if stack == [] then [] else stack[..|stack| - 1], parts[1..])
    else Walk(stack + [parts[0]], parts[1..])
  }

  function Joined(parts: seq<string>): string {
    if parts == [] then "" else "/" + parts[0] + Joined(parts[1..])
  }

  // path.Join(DIRECTORY, base)
  function ById(base: string): string {
    var parts := Walk(["dev", "disk", "by-id"], Split(base));
    if parts == [] then "/" else Joined(parts)
  }

  function Suffix(partition: string): string {
    if partition == "" then "" else PARTITION_SUFFIX + partition
  }

  function ByIdPaths(device: string, partition: string): seq<string> {
    [ById(LINODE_PREFIX + device) + Suffix(partition), ById(SCSI_PREFIX + device) + Suffix(partition)]
  }

  method GetDiskByIdPaths(device: string, partition: string) returns (paths: array<string>)
    ensures fresh(paths) && paths[..] == ByIdPaths(device, partition)
  {
    paths := new string[2] [ById(LINODE_PREFIX + device), ById(SCSI_PREFIX + device)];
    ghost var bare := paths[..];
    if partition != "" {
      for i := 0 to paths.Length
        invariant forall k :: 0 <= k < i ==> paths[k] == bare[k] + PARTITION_SUFFIX + partition
        invariant forall k :: i <= k < paths.Length ==> paths[k] == bare[k]
      {
        paths[i] := paths[i] + PARTITION_SUFFIX + partition;
      }
      assert forall k :: 0 <= k < 2 ==>
        bare[k] + PARTITION_SUFFIX + partition == bare[k] + (PARTITION_SUFFIX + partition);
    } else {
      assert forall k :: 0 <= k < 2 ==> bare[k] + Suffix(partition) == bare[k];
    }
    assert paths[0] == bare[0] + Suffix(partition) && paths[1] == bare[1] + Suffix(partition);
  }

  // The outcome of the search as the caller means it: some index holds the answer and
  // every earlier candidate is known to be absent.
  ghost predicate IsSearch(paths: seq<string>, stat: string -> Stat, r: Search) {
    match r
    case NoneExists => forall k :: 0 <= k < |paths| ==> stat(paths[k]) == Missing
    case Found(path) => exists i :: StopsAt(paths, stat, i) && path == paths[i] && stat(path) == Present
    case SearchFailed => exists i :: StopsAt(paths, stat, i) && stat(paths[i]) == Unreadable
  }

  ghost predicate StopsAt(paths: seq<string>, stat: string -> Stat, i: int) {
    0 <= i < |paths| && stat(paths[i]) != Missing && forall k :: 0 <= k < i ==> stat(paths[k]) == Missing
  }

  function FirstExisting(paths: seq<string>, stat: string -> Stat): (r: Search)
    ensures r.Found? ==> r.path in paths && stat(r.path) == Present
  {
    if paths == [] then NoneExists
    else match stat(paths[0])
      case Unreadable => SearchFailed
      case Present => Found(paths[0])
      case Missing => FirstExisting(paths[1..], stat)
  }

  lemma {:induction false} FirstExistingIsSearch(paths: seq<string>, stat: string -> Stat)
    ensures IsSearch(paths, stat, FirstExisting(paths, stat))
  {
    if paths != [] {
      if stat(paths[0]) == Missing {
        FirstExistingIsSearch(paths[1..], stat);
        if !FirstExisting(paths, stat).NoneExists? {
          var i :| StopsAt(paths[1..], stat, i) &&
            (FirstExisting(paths, stat).Found? ==> FirstExisting(paths, stat).path == paths[1..][i]) &&
            (FirstExisting(paths, stat).SearchFailed? ==> stat(paths[1..][i]) == Unreadable);
          assert StopsAt(paths, stat, i + 1);
        }
      } else {
        assert StopsAt(paths, stat, 0);
      }
    }
  }

  lemma SearchIsUnique(paths: seq<string>, stat: string -> Stat, a: Search, b: Search)
    requires IsSearch(paths, stat, a) && IsSearch(paths, stat, b)
    ensures a == b
  {
    if !a.NoneExists? && !b.NoneExists? {
      var i :| StopsAt(paths, stat, i) && (a.Found? ==> a.path == paths[i] && stat(paths[i]) == Present)
        && (a.SearchFailed? ==> stat(paths[i]) == Unreadable);
      var j :| StopsAt(paths, stat, j) && (b.Found? ==> b.path == paths[j] && stat(paths[j]) == Present)
        && (b.SearchFailed? ==> stat(paths[j]) == Unreadable);
      assert i == j;
    }
  }

  method VerifyDevicePath(paths: seq<string>, stat: string -> Stat) returns (r: Search)
    ensures IsSearch(paths, stat, r) && r == FirstExisting(paths, stat)
  {
    var stopped := |paths|;
    r := NoneExists;
    for i := 0 to |paths|
      invariant forall k :: 0 <= k < i ==> stat(paths[k]) == Missing
      invariant r == NoneExists
    {
      match stat(paths[i])
      case Unreadable =>
        r := SearchFailed;
        stopped := i;
        break;
      case Present =>
        r := Found(paths[i]);
        stopped := i;
        break;
      case Missing =>
    }
    if stopped < |paths| {
      assert StopsAt(paths, stat, stopped);
    }
    FirstExistingIsSearch(paths, stat);
    SearchIsUnique(paths, stat, r, FirstExisting(paths, stat));
  }

  // ----- What path.Join leaves of a name

  // A component path.Clean keeps.
  predicate Plain(component: string) {
    component != "" && component != "." && component != ".."
  }

  predicate AllPlain(parts: seq<string>) {
    forall i :: 0 <= i < |parts| ==> Plain(parts[i])
  }

  // The components a label adds after its first, which is joined to a prefix.
  predicate SurvivesCleaning(text: string) {
    AllPlain(Split(text)[1..])
  }

  lemma {:induction false} JoinedSplit(s: string)
    ensures Joined(Split(s)) == "/" + s
  {
    if s == "" {
    } else {
      var rest, tail := Split(s[1..]), s[1..];
      JoinedSplit(tail);
      assert s == [s[0]] + tail;
      if s[0] == '/' {
        JoinedCons("", rest);
      } else {
        JoinedCons([s[0]] + rest[0], rest[1..]);
        JoinedCons(rest[0], rest[1..]);
        assert [rest[0]] + rest[1..] == rest;
        CancelHead("/", rest[0] + Joined(rest[1..]), tail);
        Regroup(s[0], rest[0], Joined(rest[1..]));
      }
    }
  }

  lemma JoinedCons(first: string, rest: seq<string>)
    ensures Joined([first] + rest) == "/" + (first + Joined(rest))
  {
    assert ([first] + rest)[1..] == rest;
    assert "/" + first + Joined(rest) == "/" + (first + Joined(rest));
  }

  lemma Regroup(c: char, a: string, b: string)
    ensures [c] + a + b == [c] + (a + b)
  {
  }

  lemma CancelHead(p: string, a: string, b: string)
    requires p + a == p + b
    ensures a == b
  {
    assert a == (p + a)[|p|..] && b == (p + b)[|p|..];
  }

  lemma {:induction false} JoinedAppend(a: seq<string>, b: seq<string>)
    ensures Joined(a + b) == Joined(a) + Joined(b)
  {
    if a == [] {
      assert a + b == b;
    } else {
      assert (a + b)[1..] == a[1..] + b;
      JoinedAppend(a[1..], b);
    }
  }

  lemma {:induction false} WalkOfPlain(stack: seq<string>, parts: seq<string>)
    requires AllPlain(parts)
    ensures Walk(stack, parts) == stack + parts
    decreases |parts|
  {
    if parts != [] {
      WalkOfPlain(stack + [parts[0]], parts[1..]);
      assert stack + [parts[0]] + parts[1..] == stack + parts;
    }
  }

  // Cleaning never lengthens a path, and shortens it as soon as one component is not plain.
  lemma {:induction false} WalkShortens(stack: seq<string>, parts: seq<string>)
    ensures |Joined(Walk(stack, parts))| <= |Joined(stack)| + |Joined(parts)|
    ensures !AllPlain(parts) ==> |Joined(Walk(stack, parts))| < |Joined(stack)| + |Joined(parts)|
    decreases |parts|
  {
    if parts != [] {
      var rest := parts[1..];
      if AllPlain(rest) && Plain(parts[0]) {
        assert AllPlain(parts) by {
          forall i | 0 <= i < |parts|
            ensures Plain(parts[i])
          {
            assert i > 0 ==> parts[i] == rest[i - 1];
          }
        }
      }
      if parts[0] == "" || parts[0] == "." {
        WalkShortens(stack, rest);
      } else if parts[0] == ".." {
        var popped := if stack == [] then [] else stack[..|stack| - 1];
        if stack != [] {
          assert popped + stack[|stack| - 1..] == stack;
          JoinedAppend(popped, stack[|stack| - 1..]);
        }
        WalkShortens(popped, rest);
      } else {
        JoinedAppend(stack, [parts[0]]);
        assert Joined([parts[0]]) == "/" + parts[0];
        WalkShortens(stack + [parts[0]], rest);
      }
    }
  }

  lemma BaseDirectory()
    ensures Joined(["dev", "disk", "by-id"]) + "/" == DIRECTORY
  {
    JoinedThree("dev", "disk", "by-id");
    assert ("/" + "dev") + ("/" + "disk") + ("/" + "by-id") + "/" == DIRECTORY;
  }

  lemma JoinedThree(a: string, b: string, c: string)
    ensures Joined([a, b, c]) == ("/" + a) + ("/" + b) + ("/" + c)
  {
    assert [a, b, c][1..] == [b, c] && [b, c][1..] == [c] && [c][1..] == [];
    assert Joined([c]) == "/" + c;
    assert Joined([b, c]) == ("/" + b) + ("/" + c);
    assert Joined([a, b, c]) == ("/" + a) + (("/" + b) + ("/" + c));
  }

  lemma CleaningKeepsExactly(start: seq<string>, dir: string, base: string)
    requires Joined(start) + "/" == dir
    ensures Joined(Walk(start, Split(base))) == dir + base <==> AllPlain(Split(base))
  {
    var parts := Split(base);
    JoinedSplit(base);
    if AllPlain(parts) {
      WalkOfPlain(start, parts);
      JoinedAppend(start, parts);
      assert Joined(start) + ("/" + base) == dir + base;
    } else {
      WalkShortens(start, parts);
      assert |Joined(start)| + |Joined(parts)| == |dir + base|;
    }
  }

  // Joining a name to the by-id directory keeps it as it is exactly when none of its
  // components is empty, "." or "..".
  lemma ByIdKeepsExactly(base: string)
    ensures ById(base) == DIRECTORY + base <==> AllPlain(Split(base))
  {
    var start := ["dev", "disk", "by-id"];
    BaseDirectory();
    CleaningKeepsExactly(start, DIRECTORY, base);
    if Walk(start, Split(base)) == [] {
      assert |DIRECTORY| > 1;
      assert |ById(base)| == 1;
    }
  }

  lemma {:induction false} SplitPrefixed(prefix: string, text: string)
    requires SlashFree(prefix)
    ensures Split(prefix + text) == [prefix + Split(text)[0]] + Split(text)[1..]
  {
    if prefix == "" {
      assert prefix + text == text;
      assert prefix + Split(text)[0] == Split(text)[0];
    } else {
      var s, rest := prefix + text, [prefix[1..] + Split(text)[0]] + Split(text)[1..];
      assert s[1..] == prefix[1..] + text;
      SplitPrefixed(prefix[1..], text);
      assert Split(s) == [[s[0]] + rest[0]] + rest[1..];
      assert [s[0]] + (prefix[1..] + Split(text)[0]) == prefix + Split(text)[0];
      assert rest[1..] == Split(text)[1..];
    }
  }

  lemma SlashFreeSurvives(text: string)
    requires SlashFree(text)
    ensures SurvivesCleaning(text)
  {
    SplitPrefixed(text, "");
    assert text + "" == text;
  }

  lemma PrefixedKeepsExactly(prefix: string, text: string)
    requires SlashFree(prefix) && |prefix| > 2
    ensures ById(prefix + text) == DIRECTORY + (prefix + text) <==> SurvivesCleaning(text)
  {
    SplitPrefixed(prefix, text);
    ByIdKeepsExactly(prefix + text);
    var parts := Split(prefix + text);
    assert |prefix + Split(text)[0]| > 2;
    assert Plain(parts[0]);
    assert parts[1..] == Split(text)[1..];
    if AllPlain(parts[1..]) {
      forall i | 0 <= i < |parts|
        ensures Plain(parts[i])
      {
        assert i > 0 ==> parts[i] == parts[1..][i - 1];
      }
    }
  }

  function OwnPaths(text: string, partition: string): seq<string> {
    var tail := if partition == "" then "" else "-part" + partition;
    ["/dev/disk/by-id/" + ("linode-" + text) + tail, "/dev/disk/by-id/" + ("scsi-0Linode_Volume_" + text) + tail]
  }

  // The candidates of a label are its own two names under the by-id directory exactly when
  // the label survives cleaning; then that holds of each, and otherwise of neither.
  lemma PathsAreOwnExactly(text: string, partition: string)
    ensures SurvivesCleaning(text) ==> ByIdPaths(text, partition) == OwnPaths(text, partition)
    ensures !SurvivesCleaning(text) ==> forall k :: 0 <= k < 2 ==>
      ByIdPaths(text, partition)[k] != OwnPaths(text, partition)[k]
  {
    PrefixedKeepsExactly(LINODE_PREFIX, text);
    PrefixedKeepsExactly(SCSI_PREFIX, text);
    if !SurvivesCleaning(text) {
      SameSuffix(ById(LINODE_PREFIX + text), DIRECTORY + (LINODE_PREFIX + text), Suffix(partition));
      SameSuffix(ById(SCSI_PREFIX + text), DIRECTORY + (SCSI_PREFIX + text), Suffix(partition));
    }
  }

  lemma SameSuffix(a: string, b: string, q: string)
    ensures a + q == b + q <==> a == b
  {
    if a + q == b + q {
      assert a == (a + q)[..|a|] && b == (b + q)[..|b|];
    }
  }

  // Which of the two candidates a path is shows in its first letter after the directory.
  lemma FamilyOf(text: string, partition: string, path: string)
    requires SurvivesCleaning(text) && path in ByIdPaths(text, partition)
    ensures |path| > |DIRECTORY|
    ensures path[|DIRECTORY|] == 'l' ==> path == (DIRECTORY + LINODE_PREFIX) + (text + Suffix(partition))
    ensures path[|DIRECTORY|] != 'l' ==> path == (DIRECTORY + SCSI_PREFIX) + (text + Suffix(partition))
  {
    PathsAreOwnExactly(text, partition);
    HeadLetter(DIRECTORY, LINODE_PREFIX, text, Suffix(partition));
    HeadLetter(DIRECTORY, SCSI_PREFIX, text, Suffix(partition));
  }

  lemma HeadLetter(dir: string, prefix: string, text: string, q: string)
    requires prefix != ""
    ensures dir + (prefix + text) + q == (dir + prefix) + (text + q)
    ensures |dir| < |dir + (prefix + text) + q| && (dir + (prefix + text) + q)[|dir|] == prefix[0]
  {
  }

  // Two labels that survive cleaning, each with its partition, share a candidate path
  // exactly when label and partition suffix spell the same text; then they share both.
  lemma SharedPathExactly(a: string, p: string, b: string, q: string)
    requires SurvivesCleaning(a) && SurvivesCleaning(b)
    ensures (exists path :: path in ByIdPaths(a, p) && path in ByIdPaths(b, q)) <==> a + Suffix(p) == b + Suffix(q)
    ensures a + Suffix(p) == b + Suffix(q) ==> ByIdPaths(a, p) == ByIdPaths(b, q)
  {
    if a + Suffix(p) == b + Suffix(q) {
      SameTextSamePaths(a, p, b, q);
      assert ByIdPaths(a, p)[0] in ByIdPaths(b, q);
    }
    if path :| path in ByIdPaths(a, p) && path in ByIdPaths(b, q) {
      FamilyOf(a, p, path);
      FamilyOf(b, q, path);
      var head := DIRECTORY + if path[|DIRECTORY|] == 'l' then LINODE_PREFIX else SCSI_PREFIX;
      CancelHead(head, a + Suffix(p), b + Suffix(q));
    }
  }

  lemma SameTextSamePaths(a: string, p: string, b: string, q: string)
    requires SurvivesCleaning(a) && SurvivesCleaning(b) && a + Suffix(p) == b + Suffix(q)
    ensures ByIdPaths(a, p) == ByIdPaths(b, q)
  {
    PathsAreOwnExactly(a, p);
    PathsAreOwnExactly(b, q);
    HeadLetter(DIRECTORY, LINODE_PREFIX, a, Suffix(p));
    HeadLetter(DIRECTORY, LINODE_PREFIX, b, Suffix(q));
    HeadLetter(DIRECTORY, SCSI_PREFIX, a, Suffix(p));
    HeadLetter(DIRECTORY, SCSI_PREFIX, b, Suffix(q));
  }

  // For a fixed partition, no candidate path serves two labels that survive cleaning.
  lemma LabelsHaveDisjointPaths(a: string, b: string, partition: string, path: string)
    requires SurvivesCleaning(a) && SurvivesCleaning(b)
    requires path in ByIdPaths(a, partition) && path in ByIdPaths(b, partition)
    ensures a == b
  {
    SharedPathExactly(a, partition, b, partition);
    SameSuffix(a, b, Suffix(partition));
  }

  // A label that does not survive can be cleaned into the path of any label that does.
  lemma CleanedLabelSharesPath(a: string, b: string, partition: string)
    requires SlashFree(a) && SurvivesCleaning(b)
    ensures ByIdPaths(a + "/../" + (LINODE_PREFIX + b), partition)[0] == ByIdPaths(b, partition)[0]
  {
    var head, base, start := LINODE_PREFIX + a, LINODE_PREFIX + b, ["dev", "disk", "by-id"];
    var tail := ".." + "/" + base;
    assert LINODE_PREFIX + (a + "/../" + base) == head + "/" + tail;
    SplitJoined(head, tail);
    SplitJoined("..", base);
    var parts := [head, ".."] + Split(base);
    assert Split(LINODE_PREFIX + (a + "/../" + base)) == parts;
    assert parts[1..] == [".."] + Split(base) && parts[1..][1..] == Split(base);
    assert (start + [head])[..3] == start;
    assert Walk(start, parts) == Walk(start + [head], parts[1..]) == Walk(start, Split(base));
  }

  lemma {:induction false} SplitJoined(a: string, b: string)
    requires SlashFree(a)
    ensures Split(a + "/" + b) == [a] + Split(b)
  {
    var s := a + "/" + b;
    if a == "" {
      assert s[1..] == b;
    } else {
      assert s[1..] == a[1..] + "/" + b;
      SplitJoined(a[1..], b);
      assert [s[0]] + a[1..] == a;
    }
  }
}
