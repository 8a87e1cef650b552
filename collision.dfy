/** Collision options and the unique-name search behind GenerateUniqueName. */
module Collision {
  import opened Errors
  import opened Paths
  import opened FileNames
  import opened Decimal
  import opened Cancellation
  import opened Storage

  /** UnifiedStorage.CollisionOption */
  datatype CollisionOption = GenerateUniqueName | ReplaceExisting | FailIfExists | OpenIfExists

  /** The three ways the core spells its numbered candidates. Counter `k` picks the k-th candidate;
      the bare desired name is the candidate at the scheme's first counter. */
  datatype NameScheme =
    | CreateFileScheme(desiredName: string)  // CreateFileAsync: bare, then "{0} ({1}).{2}" from 1
    | MoveScheme(newName: string)            // MoveAsync: bare at 1, then "{0} ({1}){2}" from 2
    | DirectoryScheme(desiredName: string)   // CreateDirectoryAsync: bare, then "{0} ({1})" from 2

  /** The counter at which a scheme tries the bare name. */
  function FirstCounter(scheme: NameScheme): nat
  {
    if scheme.CreateFileScheme? then 0 else 1
  }

  /** String.Format with one number between a fixed prefix and a fixed suffix. */
  function Format(prefix: string, n: nat, suffix: string): string
  {
    prefix + NatToString(n) + suffix
  }

  function CandidateName(scheme: NameScheme, k: nat): string
  {
    match scheme
    case CreateFileScheme(d) =>
      if k == 0 then d
      else Format(GetFileNameWithoutExtension(d) + " (", k, ")." + GetExtension(d))
    case MoveScheme(n) =>
      if k <= 1 then n
      else Format(GetFileNameWithoutExtension(n) + " (", k, ")" + GetExtension(n))
    case DirectoryScheme(d) =>
      if k <= 1 then d else Format(d + " (", k, ")")
  }

  function Candidate(dir: Path, scheme: NameScheme, k: nat): Path
  {
    Combine(dir, CandidateName(scheme, k))
  }

  /** A formatted name determines its number. */
  lemma FormatInjective(prefix: string, m: nat, n: nat, suffix: string)
    requires Format(prefix, m, suffix) == Format(prefix, n, suffix)
    ensures m == n
  {
    var x, y := NatToString(m), NatToString(n);
    var f := Format(prefix, m, suffix);
    assert |x| == |y|;
    assert x == f[|prefix|..|prefix| + |x|];
    assert y == Format(prefix, n, suffix)[|prefix|..|prefix| + |y|];
    NatToStringInjective(m, n);
  }

  /** A numbered candidate is longer than the bare name it is made from. */
  lemma FormattedIsLonger(scheme: NameScheme, k: nat)
    requires k > FirstCounter(scheme)
    ensures |CandidateName(scheme, k)| > |CandidateName(scheme, FirstCounter(scheme))|
  {
    match scheme
    case CreateFileScheme(d) => RootAndExtensionFit(d);
    case MoveScheme(n) => RootAndExtensionFit(n);
    case DirectoryScheme(d) =>
  }

  /** From its first counter on, a scheme never spells two counters alike. */
  lemma CandidateNameInjective(scheme: NameScheme, i: nat, j: nat)
    requires i >= FirstCounter(scheme) && j >= FirstCounter(scheme)
    requires CandidateName(scheme, i) == CandidateName(scheme, j)
    ensures i == j
  {
    var b := FirstCounter(scheme);
    if i == b && j > b {
      FormattedIsLonger(scheme, j);
    } else if j == b && i > b {
      FormattedIsLonger(scheme, i);
    } else if i > b && j > b {
      match scheme
      case CreateFileScheme(d) =>
        FormatInjective(GetFileNameWithoutExtension(d) + " (", i, j, ")." + GetExtension(d));
      case MoveScheme(n) =>
        FormatInjective(GetFileNameWithoutExtension(n) + " (", i, j, ")" + GetExtension(n));
      case DirectoryScheme(d) =>
        FormatInjective(d + " (", i, j, ")");
    }
  }

  lemma CandidateInjective(dir: Path, scheme: NameScheme, i: nat, j: nat)
    requires i >= FirstCounter(scheme) && j >= FirstCounter(scheme)
    requires Candidate(dir, scheme, i) == Candidate(dir, scheme, j)
    ensures i == j
  {
    assert Candidate(dir, scheme, i)[|dir|] == CandidateName(scheme, i);
    CandidateNameInjective(scheme, i, j);
  }

  /** The first counter from `k` on whose candidate is not in `occupied`. Each probed candidate is
      taken out of `occupied`, which is finite, so the search ends. */
  function FirstFree(occupied: set<Path>, dir: Path, scheme: NameScheme, k: nat): (r: nat)
    ensures r >= k
    decreases occupied
  {
    var c := Candidate(dir, scheme, k);
    if c !in occupied then k else FirstFree(occupied - {c}, dir, scheme, k + 1)
  }

  /** FirstFree finds a free candidate, every candidate before it is taken, and it lies no further
      than one past the number of occupied paths. */
  lemma {:induction false} FirstFreeIsFirst(occupied: set<Path>, dir: Path, scheme: NameScheme, k: nat)
    requires k >= FirstCounter(scheme)
    ensures var r := FirstFree(occupied, dir, scheme, k);
      && Candidate(dir, scheme, r) !in occupied
      && (forall j :: k <= j < r ==> Candidate(dir, scheme, j) in occupied)
      && r - k <= |occupied|
    decreases occupied
  {
    var c := Candidate(dir, scheme, k);
    if c in occupied {
      var rest := occupied - {c};
      FirstFreeIsFirst(rest, dir, scheme, k + 1);
      var r := FirstFree(rest, dir, scheme, k + 1);
      assert FirstFree(occupied, dir, scheme, k) == r;
      assert |rest| == |occupied| - 1;
      if Candidate(dir, scheme, r) == c {
        CandidateInjective(dir, scheme, r, k);
      }
      assert Candidate(dir, scheme, r) !in occupied;
      forall j | k <= j < r ensures Candidate(dir, scheme, j) in occupied {
        if j > k {
          assert Candidate(dir, scheme, j) in rest;
        }
      }
    }
  }

  /** The unique-name loop of CreateFileAsync (both revisions): starting from the desired name,
      while the candidate is an existing file, check for cancellation and try "{root} ({num}).{ext}"
      for num = 1, 2, ... . The loop only probes; it creates nothing. */
  method GenerateFileName(fs: FileStore, dir: Path, desiredName: string, token: CancellationToken)
    returns (r: Result<Path>)
    ensures var scheme := CreateFileScheme(desiredName);
      var k := FirstFree(fs.files.Keys, dir, scheme, 0);
      r == if k >= 1 && IsCancellationRequested(token, k) then Err(OperationCanceled)
           else Ok(Candidate(dir, scheme, k))
  {
    var desiredRoot := GetFileNameWithoutExtension(desiredName);
    var desiredExtension := GetExtension(desiredName);
    ghost var scheme := CreateFileScheme(desiredName);
    ghost var k := FirstFree(fs.files.Keys, dir, scheme, 0);
    FirstFreeIsFirst(fs.files.Keys, dir, scheme, 0);
    var newPath := Combine(dir, desiredName);
    var num := 1;
    while fs.FileExists(newPath)
      invariant 1 <= num <= k + 1
      invariant newPath == Candidate(dir, scheme, num - 1)
      invariant num == 1 || !IsCancellationRequested(token, num - 1)
      decreases k + 1 - num
    {
      if IsCancellationRequested(token, num) {
        return Err(OperationCanceled);
      }
      newPath := Combine(dir, Format(desiredRoot + " (", num, ")." + desiredExtension));
      num := num + 1;
    }
    r := Ok(newPath);
  }

  /** The unique-name loop of CreateDirectoryAsync: while the candidate is an existing directory,
      check for cancellation and try "{desiredName} ({num})" for num = 2, 3, ... . */
  method GenerateDirectoryName(fs: FileStore, dir: Path, desiredName: string, token: CancellationToken)
    returns (r: Result<Path>)
    ensures var scheme := DirectoryScheme(desiredName);
      var k := FirstFree(fs.dirs, dir, scheme, 1);
      r == if k >= 2 && IsCancellationRequested(token, k - 1) then Err(OperationCanceled)
           else Ok(Candidate(dir, scheme, k))
  {
    ghost var scheme := DirectoryScheme(desiredName);
    ghost var k := FirstFree(fs.dirs, dir, scheme, 1);
    FirstFreeIsFirst(fs.dirs, dir, scheme, 1);
    var newPath := Combine(dir, desiredName);
    var num := 2;
    while fs.DirectoryExists(newPath)
      invariant 2 <= num <= k + 1
      invariant newPath == Candidate(dir, scheme, num - 1)
      invariant num == 2 || !IsCancellationRequested(token, num - 2)
      decreases k + 1 - num
    {
      if IsCancellationRequested(token, num - 1) {
        return Err(OperationCanceled);
      }
      newPath := Combine(dir, Format(desiredName + " (", num, ")"));
      num := num + 1;
    }
    r := Ok(newPath);
  }

  /** The spellings the three schemes produce for a dotted name. */
  lemma CandidateNameExamples()
    ensures CandidateName(CreateFileScheme("report.txt"), 1) == "report (1)..txt"
    ensures CandidateName(MoveScheme("report.txt"), 1) == "report.txt"
    ensures CandidateName(MoveScheme("report.txt"), 2) == "report (2).txt"
    ensures CandidateName(DirectoryScheme("photos"), 2) == "photos (2)"
  {
    ReportNameParts();
    assert NatToString(1) == "1" && NatToString(2) == "2";
    assert CandidateName(CreateFileScheme("report.txt"), 1) == "report" + " (" + "1" + ")." + ".txt";
    assert CandidateName(MoveScheme("report.txt"), 2) == "report" + " (" + "2" + ")" + ".txt";
    assert CandidateName(DirectoryScheme("photos"), 2) == "photos" + " (" + "2" + ")";
  }

  /** `report.txt` splits into the root `report` and the extension `.txt`. */
  lemma ReportNameParts()
    ensures GetFileNameWithoutExtension("report.txt") == "report"
    ensures GetExtension("report.txt") == ".txt"
  {
    var s := "report.txt";
    assert LastIndexOf(s, '.') == 6 by {
      assert s[..9] == "report.tx";
      assert "report.tx"[..8] == "report.t";
      assert "report.t"[..7] == "report.";
    }
  }
}
