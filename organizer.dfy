/**
 * The file-handling pipeline around the classifier. `extract_images` copies every image
 * found by a walk of the source tree into the flat staging folder `images` under the
 * destination root. `sort_images_by_category_ai` then classifies each staged image and
 * moves it into the folder named after its label. Both resolve name clashes with a `_<n>`
 * suffix and never overwrite a file.
 */
module Organizer {
  import opened Wrappers
  import opened Text
  import Sniffer
  import SizeFilter
  import Classifier

  /** The staging folder's name under the destination root. */
  const Staging: string := "images"

  /** Extensions `extract_images` trusts without sniffing (lower-cased, dot included). */
  const ImageExtensions: seq<string> := [".png", ".jpg", ".jpeg", ".gif", ".bmp", ".tiff"]

  /** Endings the sorter accepts when it lists the staging folder; `.tiff` is not among them. */
  const ListedExtensions: seq<string> := [".png", ".jpg", ".jpeg", ".gif", ".bmp"]

  /**
   * One file met by the walk of the source tree: its base name, its bytes (`None` when it
   * cannot be opened), its dimensions as the image decoder reports them (`None` when
   * decoding raises) and whether copying it into the staging folder succeeds.
   */
  datatype FileRecord = FileRecord(name: string, contents: Option<seq<Sniffer.byte>>, dims: Option<(nat, nat)>, copyOk: bool)

  /**
   * What the world does for the i-th file the sorter processes: the outcome of the
   * inference call, and whether `shutil.move` succeeds when asked to move it into an
   * existing folder.
   */
  datatype Environment = Environment(infer: nat -> Classifier.Inference, moveOk: nat -> bool)

  predicate NoDuplicates<T(==)>(s: seq<T>)
  {
    forall i, j :: 0 <= i < j < |s| ==> s[i] != s[j]
  }

  /** `os.path.splitext(name)[1].lower()`: the extension, dot included, lower-cased. */
  function LowerExt(name: string): string
  {
    Lower(SplitExt(name).1)
  }

  /**
   * The format extension (no dot) a walked file is staged with, or `None` when it is not
   * an image: a known extension decides by itself, anything else goes to the sniffer.
   */
  function ImageFormat(f: FileRecord): (fmt: Option<string>)
    ensures fmt.Some? ==> fmt.value in {"png", "jpg", "jpeg", "gif", "bmp", "tiff"}
    ensures LowerExt(f.name) in ImageExtensions ==> fmt == Some(LowerExt(f.name)[1..])
    ensures LowerExt(f.name) !in ImageExtensions ==>
      (fmt.Some? <==> Sniffer.GetFileType(f.contents).Some?) &&
      (fmt.Some? ==> fmt.value == Sniffer.GetFileType(f.contents).value.ext)
  {
    var ext := LowerExt(f.name);
    if ext in ImageExtensions then Some(ext[1..])
    else match Sniffer.GetFileType(f.contents)
      case Some(t) => if t.category == "images" then Some(t.ext) else None
      case None => None
  }

  /** The records `extract_images` stages: image candidates that pass the size filter. */
  predicate Qualifies(f: FileRecord, minSize: int)
  {
    ImageFormat(f).Some? && SizeFilter.IsValidImageSize(f.dims, minSize)
  }

  /** The number of walked files that qualify and copy successfully. */
  function CountStaged(walk: seq<FileRecord>, minSize: int): (n: nat)
    ensures n <= |walk|
  {
    if walk == [] then 0
    else
      var last := walk[|walk| - 1];
      CountStaged(walk[..|walk| - 1], minSize) + if Qualifies(last, minSize) && last.copyOk then 1 else 0
  }

  lemma {:induction false} CountStagedStep(walk: seq<FileRecord>, i: nat, minSize: int)
    requires i < |walk|
    ensures CountStaged(walk[..i + 1], minSize) ==
      CountStaged(walk[..i], minSize) + if Qualifies(walk[i], minSize) && walk[i].copyOk then 1 else 0
  {
    assert walk[..i + 1][..i] == walk[..i];
  }

  /**
   * The name a qualifying file is staged under before clashes are considered: the
   * original name whenever it has any extension, else the name with the format appended.
   */
  function StagedName(name: string, fmt: string): (staged: string)
    ensures SplitExt(name).1 != [] ==> staged == name
    ensures SplitExt(name).1 == [] ==> staged == name + "." + fmt
  {
    if LowerExt(name) == [] then SplitExt(name).0 + "." + fmt else name
  }

  /** The `n`-th clash candidate: `base`, an underscore, `n` in decimal, then `ext`. */
  function Suffixed(base: string, n: nat, ext: string): string
  {
    base + "_" + NatToDecimal(n) + ext
  }

  lemma {:induction false} SuffixedInjective(base: string, ext: string, m: nat, n: nat)
    ensures Suffixed(base, m, ext) == Suffixed(base, n, ext) ==> m == n
  {
    var sm, sn := Suffixed(base, m, ext), Suffixed(base, n, ext);
    if sm == sn {
      var dm, dn := NatToDecimal(m), NatToDecimal(n);
      var lo := |base| + 1;
      assert |dm| == |dn|;
      assert sm[lo..lo + |dm|] == dm;
      assert sn[lo..lo + |dn|] == dn;
      DecimalInjective(m, n);
    }
  }

  /** A candidate is always longer than the name it replaces. */
  lemma {:induction false} SuffixedDiffers(base: string, n: nat, ext: string)
    ensures Suffixed(base, n, ext) != base + ext
  {
    assert |Suffixed(base, n, ext)| > |base + ext|;
  }

  /** If the first `k` candidates are all taken, at least `k` names are taken. */
  lemma {:induction false} TakenSuffixesBound(taken: set<string>, base: string, ext: string, k: nat)
    requires forall m :: 1 <= m <= k ==> Suffixed(base, m, ext) in taken
    ensures k <= |taken|
  {
    if k > 0 {
      var rest := taken - {Suffixed(base, k, ext)};
      forall m | 1 <= m <= k - 1
        ensures Suffixed(base, m, ext) in rest
      {
        SuffixedInjective(base, ext, m, k);
      }
      TakenSuffixesBound(rest, base, ext, k - 1);
    }
  }

  /** `n` is the smallest counter from 1 whose candidate is free. */
  predicate FirstFree(taken: set<string>, base: string, ext: string, n: int)
  {
    1 <= n && Suffixed(base, n, ext) !in taken &&
    forall m :: 1 <= m < n ==> Suffixed(base, m, ext) in taken
  }

  /**
   * The clash rule of both loops: `wanted` itself when it is free, else the candidate
   * with the smallest free counter.
   */
  ghost predicate ResolvesTo(taken: set<string>, wanted: string, base: string, ext: string, got: string)
  {
    if wanted !in taken then got == wanted
    else exists n :: FirstFree(taken, base, ext, n) && got == Suffixed(base, n, ext)
  }

  /** Only one counter can be the smallest free one. */
  lemma {:induction false} FirstFreeUnique(taken: set<string>, base: string, ext: string, m: int, n: int)
    requires FirstFree(taken, base, ext, m) && FirstFree(taken, base, ext, n)
    ensures m == n
  {
  }

  /** The smallest free counter from `n` on, when every counter below `n` is taken. */
  function FreeSuffixFrom(taken: set<string>, base: string, ext: string, n: nat): (k: nat)
    requires 1 <= n && forall m :: 1 <= m < n ==> Suffixed(base, m, ext) in taken
    ensures FirstFree(taken, base, ext, k)
    decreases |taken| + 1 - n
  {
    if Suffixed(base, n, ext) !in taken then n
    else
      TakenSuffixesBound(taken, base, ext, n);
      FreeSuffixFrom(taken, base, ext, n + 1)
  }

  /** The name the clash rule picks among the names already `taken`. */
  function ClashFree(taken: set<string>, wanted: string, base: string, ext: string): (got: string)
    ensures got !in taken
    ensures ResolvesTo(taken, wanted, base, ext, got)
  {
    if wanted !in taken then wanted
    else
      var n := FreeSuffixFrom(taken, base, ext, 1);
      assert FirstFree(taken, base, ext, n);
      Suffixed(base, n, ext)
  }

  /** The clash rule determines the name: any name it allows is the one `ClashFree` picks. */
  lemma {:induction false} ResolvesToUnique(taken: set<string>, wanted: string, base: string, ext: string, got: string)
    requires ResolvesTo(taken, wanted, base, ext, got)
    ensures got == ClashFree(taken, wanted, base, ext)
  {
    if wanted in taken {
      var n :| FirstFree(taken, base, ext, n) && got == Suffixed(base, n, ext);
      FirstFreeUnique(taken, base, ext, n, FreeSuffixFrom(taken, base, ext, 1));
    }
  }

  /** The staging name `extract_images` picks for a qualifying file with format `fmt`. */
  function StagingNameOf(taken: set<string>, name: string, fmt: string): string
  {
    var wanted := StagedName(name, fmt);
    ClashFree(taken, wanted, SplitExt(wanted).0, "." + fmt)
  }

  /** The destination name the sorter picks for `filename` in a folder holding `taken`. */
  function DestinationOf(taken: set<string>, filename: string): string
  {
    ClashFree(taken, filename, SplitExt(filename).0, SplitExt(filename).1)
  }

  /** The counter loop of `extract_images`: try `base_1`, `base_2`, ... until a name is free. */
  method FirstFreeSuffix(taken: set<string>, base: string, ext: string) returns (n: nat)
    ensures FirstFree(taken, base, ext, n)
  {
    n := 1;
    while Suffixed(base, n, ext) in taken
      invariant 1 <= n <= |taken| + 1
      invariant forall m :: 1 <= m < n ==> Suffixed(base, m, ext) in taken
      decreases |taken| + 1 - n
    {
      TakenSuffixesBound(taken, base, ext, n);
      n := n + 1;
    }
  }

  /**
   * The staging name of a qualifying file: its staged name if free in the staging folder,
   * else the first free `stem_<n>.<fmt>`, where the extension is the lower-cased or
   * detected format rather than the original one.
   */
  method StagingName(taken: set<string>, name: string, fmt: string) returns (staged: string)
    ensures staged !in taken
    ensures ResolvesTo(taken, StagedName(name, fmt), SplitExt(StagedName(name, fmt)).0, "." + fmt, staged)
    ensures staged == StagingNameOf(taken, name, fmt)
  {
    staged := StagedName(name, fmt);
    if staged in taken {
      var base := SplitExt(staged).0;
      var counter := FirstFreeSuffix(taken, base, "." + fmt);
      staged := Suffixed(base, counter, "." + fmt);
    }
    ResolvesToUnique(taken, StagedName(name, fmt), SplitExt(StagedName(name, fmt)).0, "." + fmt, staged);
  }

  /**
   * The destination loop of the sorter: the file's own name if free in the target folder,
   * else the first free `stem_<n>` followed by the original extension.
   */
  method DestinationName(taken: set<string>, filename: string) returns (dest: string)
    ensures dest !in taken
    ensures ResolvesTo(taken, filename, SplitExt(filename).0, SplitExt(filename).1, dest)
    ensures dest == DestinationOf(taken, filename)
  {
    var base, ext := SplitExt(filename).0, SplitExt(filename).1;
    dest := filename;
    var counter := 1;
    while dest in taken
      invariant 1 <= counter <= |taken| + 1
      invariant counter == 1 ==> dest == filename
      invariant counter > 1 ==> filename in taken && dest == Suffixed(base, counter - 1, ext)
      invariant forall m :: 1 <= m < counter - 1 ==> Suffixed(base, m, ext) in taken
      decreases |taken| + 1 - counter
    {
      forall m | 1 <= m <= counter - 1
        ensures Suffixed(base, m, ext) in taken - {filename}
      {
        SuffixedDiffers(base, m, ext);
      }
      TakenSuffixesBound(taken - {filename}, base, ext, counter - 1);
      dest := Suffixed(base, counter, ext);
      counter := counter + 1;
    }
    if counter > 1 {
      assert FirstFree(taken, base, ext, counter - 1);
    }
    ResolvesToUnique(taken, filename, base, ext, dest);
  }

  /**
   * The staging folder after one walked file: a qualifying file that copies adds its
   * staging name, chosen against what is already there; any other file leaves it as it is.
   */
  function StagedWith(staged: set<string>, f: FileRecord, minSize: int): (r: set<string>)
    ensures staged <= r
    ensures |r| == |staged| + if Qualifies(f, minSize) && f.copyOk then 1 else 0
  {
    if Qualifies(f, minSize) && f.copyOk then staged + {StagingNameOf(staged, f.name, ImageFormat(f).value)} else staged
  }

  /**
   * The staging folder after `extract_images` has processed `walk`, starting from the
   * names in `staged`: each qualifying file whose copy succeeds adds the name the clash
   * rule picks among the names present at that point.
   */
  function StagedAfter(staged: set<string>, walk: seq<FileRecord>, minSize: int): set<string>
  {
    if walk == [] then staged
    else StagedWith(StagedAfter(staged, walk[..|walk| - 1], minSize), walk[|walk| - 1], minSize)
  }

  lemma {:induction false} StagedAfterStep(staged: set<string>, walk: seq<FileRecord>, i: nat, minSize: int)
    requires i < |walk|
    ensures StagedAfter(staged, walk[..i + 1], minSize) == StagedWith(StagedAfter(staged, walk[..i], minSize), walk[i], minSize)
  {
    assert walk[..i + 1][..i] == walk[..i];
  }

  /**
   * Staging never loses a name, and it gains exactly one new name per file counted:
   * no staged file is ever overwritten.
   */
  lemma {:induction false} StagedAfterGrows(staged: set<string>, walk: seq<FileRecord>, minSize: int)
    ensures staged <= StagedAfter(staged, walk, minSize)
    ensures |StagedAfter(staged, walk, minSize)| == |staged| + CountStaged(walk, minSize)
  {
    if walk != [] {
      StagedAfterGrows(staged, walk[..|walk| - 1], minSize);
    }
  }

  /** `f.lower().endswith(('.png', '.jpg', '.jpeg', '.gif', '.bmp'))`. */
  predicate IsListed(name: string)
  {
    exists e :: e in ListedExtensions && EndsWith(Lower(name), e)
  }

  /** A dot followed by characters that are not dots, as every non-empty extension is. */
  predicate IsDotExtension(e: string)
  {
    |e| > 0 && e[0] == '.' && forall i :: 1 <= i < |e| ==> e[i] != '.'
  }

  lemma {:induction false} ListedAreExtensions()
    ensures forall e :: e in ListedExtensions ==> IsDotExtension(e)
  {
  }

  /** Two dotted endings of one string, neither with a further dot, are the same ending. */
  lemma {:induction false} SameLastDot(s: string, p: string, q: string)
    requires EndsWith(s, p) && EndsWith(s, q)
    requires IsDotExtension(p) && IsDotExtension(q)
    ensures p == q
  {
    assert forall i :: |s| - |p| < i < |s| ==> s[i] == p[i - (|s| - |p|)];
    assert forall i :: |s| - |q| < i < |s| ==> s[i] == q[i - (|s| - |q|)];
    assert s[|s| - |p|] == '.' && s[|s| - |q|] == '.';
  }

  /**
   * A name with an extension is listed by the sorter exactly when its lower-cased
   * extension is one of the five listed ones: a staged `.tiff` file, or a sniffed file
   * staged under an unrecognised extension, is never sorted.
   */
  lemma {:induction false} ListedIffExtension(name: string)
    requires SplitExt(name).1 != []
    ensures IsListed(name) <==> LowerExt(name) in ListedExtensions
  {
    var base, ext := SplitExt(name).0, SplitExt(name).1;
    var x := LowerExt(name);
    LowerAppend(base, ext);
    assert Lower(name) == Lower(base) + x;
    assert EndsWith(Lower(name), x) by {
      assert Lower(name)[|Lower(name)| - |x|..] == x;
    }
    assert IsDotExtension(x) by {
      forall i | 1 <= i < |x|
        ensures x[i] != '.'
      {
        assert ext[1..][i - 1] == ext[i];
      }
    }
    if IsListed(name) {
      var e :| e in ListedExtensions && EndsWith(Lower(name), e);
      ListedAreExtensions();
      SameLastDot(Lower(name), e, x);
    }
  }

  /** `extract_images` stages `.tiff` files, but the sorter never lists them. */
  lemma {:induction false} TiffIsStagedButNotListed(name: string)
    requires LowerExt(name) == ".tiff"
    ensures SplitExt(name).1 != [] && !IsListed(name)
  {
    ListedIffExtension(name);
  }

  /** The duplicate-free keys of `{cat: 0 for cat in categories}`, in first-occurrence order. */
  function Distinct(s: seq<string>): (d: seq<string>)
    ensures NoDuplicates(d)
    ensures forall x :: x in d <==> x in s
  {
    if s == [] then []
    else
      var d := Distinct(s[..|s| - 1]);
      assert forall x :: x in s <==> x in s[..|s| - 1] || x == s[|s| - 1];
      if s[|s| - 1] in d then d else d + [s[|s| - 1]]
  }

  /** The sum of the counts stored under `keys`. */
  function Total(m: map<string, int>, keys: seq<string>): int
  {
    if keys == [] then 0
    else Total(m, keys[..|keys| - 1]) + if keys[|keys| - 1] in m then m[keys[|keys| - 1]] else 0
  }

  lemma {:induction false} TotalAgrees(m: map<string, int>, m': map<string, int>, keys: seq<string>)
    requires forall k :: k in keys ==> (k in m <==> k in m') && (k in m ==> m[k] == m'[k])
    ensures Total(m, keys) == Total(m', keys)
  {
    if keys != [] {
      TotalAgrees(m, m', keys[..|keys| - 1]);
    }
  }

  /** Raising the count of one key that is listed once, and nothing else, raises the total by one. */
  lemma {:induction false} TotalIncrement(m: map<string, int>, m': map<string, int>, keys: seq<string>, k: string)
    requires NoDuplicates(keys) && k in keys && k in m && k in m' && m'[k] == m[k] + 1
    requires forall j :: j in keys && j != k ==> (j in m <==> j in m') && (j in m ==> m[j] == m'[j])
    ensures Total(m', keys) == Total(m, keys) + 1
  {
    var prefix, last := keys[..|keys| - 1], keys[|keys| - 1];
    assert NoDuplicates(prefix);
    if last == k {
      TotalAgrees(m, m', prefix);
    } else {
      assert k in prefix;
      TotalIncrement(m, m', prefix, k);
    }
  }

  /** `{cat: 0 for cat in categories}`. */
  function ZeroCounts(categories: seq<string>): (m: map<string, int>)
    ensures m.Keys == set c | c in categories
    ensures forall c :: c in m ==> m[c] == 0
  {
    map c | c in categories :: 0
  }

  lemma {:induction false} TotalZero(m: map<string, int>, keys: seq<string>)
    requires forall k :: k in m ==> m[k] == 0
    ensures Total(m, keys) == 0
  {
    if keys != [] {
      TotalZero(m, keys[..|keys| - 1]);
    }
  }

  /** The label the classifier gives the i-th listed file (the file exists when it is reached). */
  function LabelOf(categories: seq<string>, env: Environment, i: nat): string
  {
    Classifier.ClassifyImage(true, env.infer(i), categories)
  }

  /**
   * Whether the sorter moves the i-th listed file: never in a dry run, otherwise when
   * the move succeeds, which needs the label's folder to exist.
   */
  predicate MovedAt(categories: seq<string>, env: Environment, dirs: set<string>, dryRun: bool, i: nat)
  {
    !dryRun && env.moveOk(i) && LabelOf(categories, env, i) in dirs
  }

  /**
   * Whether the i-th listed file is counted: its label must be a key of the result map
   * (a label outside the categories raises `KeyError`, which the loop swallows), and
   * outside a dry run the move must have succeeded.
   */
  predicate Counted(categories: seq<string>, env: Environment, dirs: set<string>, dryRun: bool, i: nat)
  {
    LabelOf(categories, env, i) in categories && (dryRun || MovedAt(categories, env, dirs, dryRun, i))
  }

  /**
   * With "other" among the categories and a folder for each category, as the sorter sets
   * up, every label is a category, so a file is counted exactly when the run is dry or its
   * move succeeds, and a file counted in a real run was moved into its label's folder.
   */
  lemma {:induction false} CountedWhenFoldersExist(categories: seq<string>, env: Environment, dirs: set<string>, dryRun: bool, i: nat)
    requires Classifier.Fallback in categories && forall c :: c in categories ==> c in dirs
    ensures LabelOf(categories, env, i) in categories
    ensures Counted(categories, env, dirs, dryRun, i) <==> dryRun || env.moveOk(i)
    ensures !dryRun ==> (Counted(categories, env, dirs, dryRun, i) <==> MovedAt(categories, env, dirs, dryRun, i))
  {
    Classifier.ClassifyWithinCategories(true, env.infer(i), categories);
  }

  /** How many of the first `n` listed files are counted under category `c`. */
  function Tally(c: string, categories: seq<string>, env: Environment, dirs: set<string>, dryRun: bool, n: nat): (t: nat)
    ensures t <= n
  {
    if n == 0 then 0
    else
      Tally(c, categories, env, dirs, dryRun, n - 1) +
      if LabelOf(categories, env, n - 1) == c && Counted(categories, env, dirs, dryRun, n - 1) then 1 else 0
  }

  /** The result map after the first `n` listed files. */
  function Tallies(categories: seq<string>, env: Environment, dirs: set<string>, dryRun: bool, n: nat): (m: map<string, int>)
    ensures m.Keys == set c | c in categories
  {
    map c | c in categories :: Tally(c, categories, env, dirs, dryRun, n)
  }

  /** A counted file raises the total of the result map by one. */
  lemma {:induction false} TalliesTotalCounted(categories: seq<string>, keys: seq<string>, env: Environment, dirs: set<string>, dryRun: bool, n: nat)
    requires NoDuplicates(keys) && forall c :: c in categories ==> c in keys
    requires n > 0 && Counted(categories, env, dirs, dryRun, n - 1)
    ensures Total(Tallies(categories, env, dirs, dryRun, n), keys) == Total(Tallies(categories, env, dirs, dryRun, n - 1), keys) + 1
  {
    TotalIncrement(Tallies(categories, env, dirs, dryRun, n - 1), Tallies(categories, env, dirs, dryRun, n),
      keys, LabelOf(categories, env, n - 1));
  }

  /** A file that is not counted leaves the result map as it was. */
  lemma {:induction false} TalliesTotalUncounted(categories: seq<string>, keys: seq<string>, env: Environment, dirs: set<string>, dryRun: bool, n: nat)
    requires n > 0 && !Counted(categories, env, dirs, dryRun, n - 1)
    ensures Total(Tallies(categories, env, dirs, dryRun, n), keys) == Total(Tallies(categories, env, dirs, dryRun, n - 1), keys)
  {
    TotalAgrees(Tallies(categories, env, dirs, dryRun, n - 1), Tallies(categories, env, dirs, dryRun, n), keys);
  }

  /** One more listed file raises the total of the result map by at most one. */
  lemma {:induction false} TalliesTotalStep(categories: seq<string>, keys: seq<string>, env: Environment, dirs: set<string>, dryRun: bool, n: nat)
    requires NoDuplicates(keys) && forall c :: c in categories ==> c in keys
    requires n > 0
    ensures Total(Tallies(categories, env, dirs, dryRun, n), keys) <= Total(Tallies(categories, env, dirs, dryRun, n - 1), keys) + 1
  {
    if Counted(categories, env, dirs, dryRun, n - 1) {
      TalliesTotalCounted(categories, keys, env, dirs, dryRun, n);
    } else {
      TalliesTotalUncounted(categories, keys, env, dirs, dryRun, n);
    }
  }

  /**
   * The counts of the result map, summed once per distinct key, never add up to more
   * than the number of files listed.
   */
  lemma {:induction false} TalliesTotal(categories: seq<string>, keys: seq<string>, env: Environment, dirs: set<string>, dryRun: bool, n: nat)
    requires NoDuplicates(keys) && forall c :: c in categories ==> c in keys
    ensures Total(Tallies(categories, env, dirs, dryRun, n), keys) <= n
  {
    if n == 0 {
      TotalZero(Tallies(categories, env, dirs, dryRun, 0), keys);
    } else {
      TalliesTotal(categories, keys, env, dirs, dryRun, n - 1);
      TalliesTotalStep(categories, keys, env, dirs, dryRun, n);
    }
  }

  /**
   * In a dry run whose categories include the fallback label, every listed file is
   * counted, so the counts add up to exactly the number of files listed.
   */
  lemma {:induction false} DryRunCountsEveryFile(categories: seq<string>, keys: seq<string>, env: Environment, dirs: set<string>, n: nat)
    requires NoDuplicates(keys) && forall c :: c in categories ==> c in keys
    requires Classifier.Fallback in categories
    ensures Total(Tallies(categories, env, dirs, true, n), keys) == n
  {
    if n == 0 {
      TotalZero(Tallies(categories, env, dirs, true, 0), keys);
    } else {
      DryRunCountsEveryFile(categories, keys, env, dirs, n - 1);
      Classifier.ClassifyWithinCategories(true, env.infer(n - 1), categories);
      TalliesTotalCounted(categories, keys, env, dirs, true, n);
    }
  }

  /** A dot-free stem followed by `.jpg` splits at that dot. */
  lemma {:induction false} JpgSplit(stem: string)
    requires |stem| > 0 && forall i :: 0 <= i < |stem| ==> stem[i] != '.'
    ensures SplitExt(stem + ".jpg") == (stem, ".jpg")
    ensures LowerExt(stem + ".jpg") == ".jpg"
  {
    var name := stem + ".jpg";
    assert name[|stem|] == '.' && name[0] != '.';
    assert forall k :: |stem| < k < |name| ==> name[k] != '.';
    assert LastIndexOf(name, '.') == |stem|;
    assert name[..|stem|] == stem && name[|stem|..] == ".jpg";
    assert Lower(".jpg") == ".jpg";
  }

  /**
   * One 800 by 800 and one 400 by 400 JPEG with a threshold of 512: only the large one is
   * staged.
   */
  lemma {:induction false} ExtractionExample()
    ensures CountStaged([FileRecord("big.jpg", None, Some((800, 800)), true),
                         FileRecord("small.jpg", None, Some((400, 400)), true)], 512) == 1
  {
    JpgSplit("big");
    assert "big" + ".jpg" == "big.jpg";
    var big, small := FileRecord("big.jpg", None, Some((800, 800)), true), FileRecord("small.jpg", None, Some((400, 400)), true);
    assert ImageFormat(big).Some? && Qualifies(big, 512);
    assert !SizeFilter.IsValidImageSize(small.dims, 512);
    var walk := [big, small];
    CountStagedStep(walk, 0, 512);
    CountStagedStep(walk, 1, 512);
    assert walk[..0] == [] && walk[..2] == walk;
  }

  /**
   * With categories birthdays and other, a model that answers "birthdays" and a move that
   * succeeds, the one listed file is counted under birthdays and none under other.
   */
  lemma {:induction false} SortingExample(env: Environment)
    requires env.infer(0) == Classifier.Reply("birthdays") && env.moveOk(0)
    ensures Tally("birthdays", ["birthdays", "other"], env, {"birthdays", "other"}, false, 1) == 1
    ensures Tally("other", ["birthdays", "other"], env, {"birthdays", "other"}, false, 1) == 0
  {
    Classifier.PlainReply("birthdays");
    assert LabelOf(["birthdays", "other"], env, 0) == "birthdays";
  }

  /** A map with the categories as keys and each category's tally as its count is the result map. */
  lemma {:induction false} TalliesExact(m: map<string, int>, categories: seq<string>, env: Environment, dirs: set<string>, dryRun: bool, n: nat)
    requires m.Keys == set c | c in categories
    requires forall c :: c in m ==> m[c] == Tally(c, categories, env, dirs, dryRun, n)
    ensures m == Tallies(categories, env, dirs, dryRun, n)
  {
  }

  /** The moved files among the first `n` listed ones. */
  function MovedNames(listing: seq<string>, categories: seq<string>, env: Environment, dirs: set<string>, dryRun: bool, n: nat): set<string>
    requires n <= |listing|
  {
    set i | 0 <= i < n && MovedAt(categories, env, dirs, dryRun, i) :: listing[i]
  }

  /** The moved names grow one listed file at a time; the file reached next is not yet among them. */
  lemma {:induction false} MovedNamesStep(listing: seq<string>, categories: seq<string>, env: Environment, dirs: set<string>, dryRun: bool, i: nat)
    requires i < |listing| && NoDuplicates(listing)
    ensures listing[i] !in MovedNames(listing, categories, env, dirs, dryRun, i)
    ensures MovedNames(listing, categories, env, dirs, dryRun, i + 1) ==
      MovedNames(listing, categories, env, dirs, dryRun, i) + if MovedAt(categories, env, dirs, dryRun, i) then {listing[i]} else {}
  {
  }

  /**
   * The folders after `os.makedirs(..., exist_ok=True)` for each of `dirs`: a missing
   * folder appears empty, an existing one keeps its files.
   */
  function WithFolders(m: map<string, set<string>>, dirs: seq<string>): (r: map<string, set<string>>)
    ensures forall d :: d in r <==> d in m || d in dirs
    ensures forall d :: d in r ==> r[d] == if d in m then m[d] else {}
  {
    if dirs == [] then m
    else
      var prev := WithFolders(m, dirs[..|dirs| - 1]);
      var d := dirs[|dirs| - 1];
      assert forall x :: x in dirs <==> x in dirs[..|dirs| - 1] || x == d;
      prev[d := if d in prev then prev[d] else {}]
  }

  /**
   * The folders after the first `n` listed files have been sorted, starting from
   * `folders`: each moved file joins its label's folder under the name the clash rule
   * picks among the files there at that point.
   */
  function SortedFolders(folders: map<string, set<string>>, listing: seq<string>, categories: seq<string>, env: Environment, dryRun: bool, n: nat): map<string, set<string>>
    requires n <= |listing|
  {
    if n == 0 then folders
    else
      var prev := SortedFolders(folders, listing, categories, env, dryRun, n - 1);
      if MovedAt(categories, env, folders.Keys, dryRun, n - 1) then
        var l := LabelOf(categories, env, n - 1);
        var taken := if l in prev then prev[l] else {};
        prev[l := taken + {DestinationOf(taken, listing[n - 1])}]
      else prev
  }

  /** Sorting creates no folder and never removes a file from one. */
  lemma {:induction false} SortedFoldersGrow(folders: map<string, set<string>>, listing: seq<string>, categories: seq<string>, env: Environment, dryRun: bool, n: nat)
    requires n <= |listing|
    ensures SortedFolders(folders, listing, categories, env, dryRun, n).Keys == folders.Keys
    ensures forall d :: d in folders ==> folders[d] <= SortedFolders(folders, listing, categories, env, dryRun, n)[d]
    ensures dryRun ==> SortedFolders(folders, listing, categories, env, dryRun, n) == folders
  {
    if n > 0 {
      SortedFoldersGrow(folders, listing, categories, env, dryRun, n - 1);
    }
  }

  /** One more listed file in a real run: the folder of `c` gains a file exactly when it is counted under `c`. */
  lemma {:induction false} SortedFoldersCountStep(folders: map<string, set<string>>, listing: seq<string>, categories: seq<string>, env: Environment, n: nat, c: string)
    requires 0 < n <= |listing| && c in categories && c in SortedFolders(folders, listing, categories, env, false, n - 1)
    ensures c in SortedFolders(folders, listing, categories, env, false, n)
    ensures |SortedFolders(folders, listing, categories, env, false, n)[c]| ==
      |SortedFolders(folders, listing, categories, env, false, n - 1)[c]| +
      if LabelOf(categories, env, n - 1) == c && Counted(categories, env, folders.Keys, false, n - 1) then 1 else 0
  {
    var prev := SortedFolders(folders, listing, categories, env, false, n - 1);
    if MovedAt(categories, env, folders.Keys, false, n - 1) {
      var l := LabelOf(categories, env, n - 1);
      var taken := if l in prev then prev[l] else {};
      assert DestinationOf(taken, listing[n - 1]) !in taken;
    }
  }

  /**
   * In a real run each category's folder gains exactly as many files as its count in the
   * result map: every counted file was moved there under a new name.
   */
  lemma {:induction false} SortedFoldersCount(folders: map<string, set<string>>, listing: seq<string>, categories: seq<string>, env: Environment, n: nat, c: string)
    requires n <= |listing| && c in categories && c in folders
    ensures c in SortedFolders(folders, listing, categories, env, false, n)
    ensures |SortedFolders(folders, listing, categories, env, false, n)[c]| == |folders[c]| + Tally(c, categories, env, folders.Keys, false, n)
  {
    if n > 0 {
      SortedFoldersCount(folders, listing, categories, env, n - 1, c);
      SortedFoldersCountStep(folders, listing, categories, env, n, c);
    }
  }

  /**
   * The destination root: the staging folder `images` when it exists, with the names of
   * the files it holds, and every other folder directly under the root, with its files.
   */
  class OutputFolder {
    var staging: Option<set<string>>
    var folders: map<string, set<string>>

    /** The staging folder appears only as `staging`, never among the other folders. */
    ghost predicate Valid()
      reads this
    {
      Staging !in folders
    }

    constructor (existing: map<string, set<string>>, staged: Option<set<string>>)
      requires Staging !in existing
      ensures Valid()
      ensures folders == existing && staging == staged
    {
      folders, staging := existing, staged;
    }

    /** The files in the staging folder; one that does not exist holds none. */
    function Staged(): set<string>
      reads this
    {
      if staging.Some? then staging.value else {}
    }

    /** The files in folder `dir`; a folder that does not exist holds none. */
    function Contents(dir: string): set<string>
      reads this
    {
      if dir in folders then folders[dir] else {}
    }

    /** `os.makedirs(..., exist_ok=True)` for a folder other than the staging one. */
    method MakeDirs(dir: string)
      requires dir != Staging
      modifies this
      ensures folders == old(folders)[dir := old(Contents(dir))]
      ensures staging == old(staging)
    {
      folders := folders[dir := Contents(dir)];
    }

    /**
     * `process_file`: stage one walked file. It is copied exactly when it is an image
     * candidate that passes the size filter and the copy succeeds, under a name that was
     * free in the staging folder.
     */
    method ProcessFile(f: FileRecord, minSize: int) returns (copied: bool)
      requires staging.Some?
      modifies this
      ensures copied <==> Qualifies(f, minSize) && f.copyOk
      ensures staging == Some(StagedWith(old(Staged()), f, minSize))
      ensures staging.Some? && old(Staged()) <= Staged()
      ensures |Staged()| == |old(Staged())| + if copied then 1 else 0
      ensures folders == old(folders)
    {
      copied := false;
      var fmt := ImageFormat(f);
      if fmt.Some? {
        if !SizeFilter.IsValidImageSize(f.dims, minSize) {
          return;
        }
        var dst := StagingName(Staged(), f.name, fmt.value);
        if f.copyOk {
          staging := Some(Staged() + {dst});
          copied := true;
        }
      }
    }

    /**
     * `extract_images`: create the staging folder and stage every file of the walk. The
     * staging folder ends up as `StagedAfter` the walk, and the result is the number of
     * files copied, exactly how many names the folder gains. No other folder changes.
     */
    method ExtractImages(walk: seq<FileRecord>, minSize: int) returns (processed: nat)
      modifies this
      ensures processed == CountStaged(walk, minSize)
      ensures staging == Some(StagedAfter(old(Staged()), walk, minSize))
      ensures old(Staged()) <= Staged()
      ensures |Staged()| == |old(Staged())| + processed
      ensures folders == old(folders)
    {
      staging := Some(Staged());
      processed := 0;
      for i := 0 to |walk|
        invariant staging == Some(StagedAfter(old(Staged()), walk[..i], minSize))
        invariant processed == CountStaged(walk[..i], minSize)
        invariant folders == old(folders)
      {
        StagedAfterStep(old(Staged()), walk, i, minSize);
        var copied := ProcessFile(walk[i], minSize);
        if copied {
          processed := processed + 1;
        }
        CountStagedStep(walk, i, minSize);
      }
      assert walk[..|walk|] == walk;
      StagedAfterGrows(old(Staged()), walk, minSize);
    }

    /** The staging folder's listing, in the order `os.listdir` happens to give. */
    method ListStaged() returns (listing: seq<string>)
      ensures forall x :: x in listing <==> x in Staged() && IsListed(x)
      ensures NoDuplicates(listing)
      ensures |listing| <= |Staged()|
    {
      var rest := Staged();
      listing := [];
      while rest != {}
        invariant rest <= Staged()
        invariant forall x :: x in listing <==> x in Staged() - rest && IsListed(x)
        invariant NoDuplicates(listing)
        invariant |listing| + |rest| <= |Staged()|
        decreases rest
      {
        var x :| x in rest;
        if IsListed(x) {
          listing := listing + [x];
        }
        rest := rest - {x};
      }
    }

    /** `shutil.move` of a staged file into the existing folder `dir`, under the free name `dest`. */
    method MoveFile(filename: string, dir: string, dest: string)
      requires staging.Some? && dir in folders
      requires dest !in Contents(dir)
      modifies this
      ensures staging == Some(old(Staged()) - {filename})
      ensures folders == old(folders)[dir := old(Contents(dir)) + {dest}]
    {
      staging := Some(Staged() - {filename});
      folders := folders[dir := Contents(dir) + {dest}];
    }

    /**
     * One round of the classification loop, for the i-th listed file: label it, pick a
     * free destination name in the label's folder and, outside a dry run, move it there
     * under that name. The label's count goes up exactly when the file is counted.
     */
    method SortOne(listing: seq<string>, i: nat, categories: seq<string>, dryRun: bool, env: Environment, results: map<string, int>)
      returns (results': map<string, int>)
      requires i < |listing| && staging.Some? && listing[i] in Staged()
      requires results.Keys == set c | c in categories
      requires forall c :: c in results ==> results[c] == Tally(c, categories, env, folders.Keys, dryRun, i)
      modifies this
      ensures results'.Keys == set c | c in categories
      ensures forall c :: c in results' ==> results'[c] == Tally(c, categories, env, old(folders).Keys, dryRun, i + 1)
      ensures staging == Some(old(Staged()) - if MovedAt(categories, env, old(folders).Keys, dryRun, i) then {listing[i]} else {})
      ensures folders == if MovedAt(categories, env, old(folders).Keys, dryRun, i) then
          var l := LabelOf(categories, env, i);
          old(folders)[l := old(Contents(l)) + {DestinationOf(old(Contents(l)), listing[i])}]
        else old(folders)
      ensures folders.Keys == old(folders).Keys
      ensures forall d :: d in old(folders) ==> old(folders)[d] <= folders[d]
      ensures dryRun ==> folders == old(folders) && staging == old(staging)
    {
      var filename := listing[i];
      var predicted := Classifier.ClassifyImage(true, env.infer(i), categories);
      var dest := DestinationName(Contents(predicted), filename);
      var counted := false;
      if !dryRun {
        if env.moveOk(i) && predicted in folders {
          MoveFile(filename, predicted, dest);
          counted := predicted in results;
        }
      } else {
        counted := predicted in results;
      }
      results' := if counted then results[predicted := results[predicted] + 1] else results;
      assert old(Staged()) - {} == old(Staged());
    }

    /**
     * The classification loop: each listed file is labelled and, outside a dry run, moved
     * into its label's folder under a free name. Each count in the result map is that
     * category's `Tally`, the folders end up as `SortedFolders`, and the staging folder
     * loses exactly the moved files. A dry run changes nothing.
     */
    method ClassifyStaged(listing: seq<string>, categories: seq<string>, dryRun: bool, env: Environment) returns (results: map<string, int>)
      requires staging.Some?
      requires NoDuplicates(listing) && forall x :: x in listing ==> x in Staged()
      modifies this
      ensures results.Keys == set c | c in categories
      ensures forall c :: c in results ==> results[c] == Tally(c, categories, env, old(folders).Keys, dryRun, |listing|)
      ensures staging == Some(old(Staged()) - MovedNames(listing, categories, env, old(folders).Keys, dryRun, |listing|))
      ensures folders == SortedFolders(old(folders), listing, categories, env, dryRun, |listing|)
      ensures folders.Keys == old(folders).Keys
      ensures forall d :: d in old(folders) ==> old(folders)[d] <= folders[d]
      ensures dryRun ==> folders == old(folders) && staging == old(staging)
    {
      ghost var dirs := folders.Keys;
      results := ZeroCounts(categories);
      for i := 0 to |listing|
        invariant staging.Some? && folders.Keys == dirs
        invariant results.Keys == set c | c in categories
        invariant forall c :: c in results ==> results[c] == Tally(c, categories, env, dirs, dryRun, i)
        invariant Staged() == old(Staged()) - MovedNames(listing, categories, env, dirs, dryRun, i)
        invariant folders == SortedFolders(old(folders), listing, categories, env, dryRun, i)
        invariant dryRun ==> staging == old(staging)
      {
        MovedNamesStep(listing, categories, env, dirs, dryRun, i);
        results := SortOne(listing, i, categories, dryRun, env, results);
      }
      SortedFoldersGrow(old(folders), listing, categories, env, dryRun, |listing|);
    }

    /** The folder-creation loop of `sort_images_by_category_ai`: one `MakeDirs` per category. */
    method MakeCategoryDirs(categories: seq<string>)
      requires Valid() && Staging !in categories
      modifies this
      ensures Valid()
      ensures folders == WithFolders(old(folders), categories)
      ensures staging == old(staging)
    {
      for i := 0 to |categories|
        invariant Valid() && staging == old(staging)
        invariant folders == WithFolders(old(folders), categories[..i])
      {
        assert categories[..i + 1][..i] == categories[..i];
        MakeDirs(categories[i]);
      }
      assert categories[..|categories|] == categories;
    }

    /**
     * Sorting a listing of staged files: nothing when it is empty, otherwise the
     * classification loop; then the staging folder is removed when a real run, after
     * `extracted` files were staged, leaves it empty.
     */
    method SortListed(listing: seq<string>, categories: seq<string>, dryRun: bool, env: Environment, extracted: nat)
      returns (results: map<string, int>)
      requires staging.Some? && extracted <= |Staged()|
      requires NoDuplicates(listing) && forall x :: x in listing ==> x in Staged()
      modifies this
      ensures results == Tallies(categories, env, old(folders).Keys, dryRun, |listing|)
      ensures folders == SortedFolders(old(folders), listing, categories, env, dryRun, |listing|)
      ensures var rest := old(Staged()) - MovedNames(listing, categories, env, old(folders).Keys, dryRun, |listing|);
        staging == if !dryRun && extracted > 0 && rest == {} then None else Some(rest)
    {
      if |listing| == 0 {
        results := ZeroCounts(categories);
        assert MovedNames(listing, categories, env, folders.Keys, dryRun, 0) == {};
      } else {
        results := ClassifyStaged(listing, categories, dryRun, env);
      }
      if extracted > 0 && |listing| > 0 && !dryRun && Staged() == {} {
        staging := None;
      }
      TalliesExact(results, categories, env, old(folders).Keys, dryRun, |listing|);
    }

    /**
     * The steps of `sort_images_by_category_ai` after extraction, which copied `extracted`
     * files: nothing more when that is zero, otherwise list the staging folder and sort
     * the listing. `listing` is what the listing step found and `remaining` the staging
     * folder's contents once sorting is done.
     */
    method SortStaged(categories: seq<string>, dryRun: bool, env: Environment, extracted: nat)
      returns (results: map<string, int>, ghost listing: seq<string>, ghost remaining: set<string>)
      requires staging.Some? && extracted <= |Staged()|
      modifies this
      ensures extracted == 0 ==> listing == []
      ensures extracted > 0 ==> NoDuplicates(listing) && forall x :: x in listing <==> x in old(Staged()) && IsListed(x)
      ensures |listing| <= |old(Staged())|
      ensures remaining == old(Staged()) - MovedNames(listing, categories, env, old(folders).Keys, dryRun, |listing|)
      ensures staging == if !dryRun && extracted > 0 && remaining == {} then None else Some(remaining)
      ensures folders == SortedFolders(old(folders), listing, categories, env, dryRun, |listing|)
      ensures results == Tallies(categories, env, old(folders).Keys, dryRun, |listing|)
      ensures Total(results, Distinct(categories)) <= |listing|
    {
      var found: seq<string> := [];
      if extracted > 0 {
        found := ListStaged();
      }
      listing := found;
      remaining := Staged() - MovedNames(listing, categories, env, folders.Keys, dryRun, |listing|);
      results := SortListed(found, categories, dryRun, env, extracted);
      TalliesTotal(categories, Distinct(categories), env, old(folders).Keys, dryRun, |listing|);
    }

    /**
     * `sort_images_by_category_ai`: create the category folders, stage the images, list
     * the staging folder, sort the listed files, and remove the staging folder when a real
     * run leaves it empty. `listing` is what the listing step found (nothing when no image
     * was staged) and `remaining` the staging folder's contents once sorting is done.
     */
    method SortImagesByCategory(walk: seq<FileRecord>, categories: seq<string>, minSize: int, dryRun: bool, env: Environment)
      returns (results: map<string, int>, ghost listing: seq<string>, ghost remaining: set<string>)
      requires Valid() && Staging !in categories
      modifies this
      ensures Valid()
      ensures CountStaged(walk, minSize) == 0 ==> listing == []
      ensures CountStaged(walk, minSize) > 0 ==>
        NoDuplicates(listing) && forall x :: x in listing <==> x in StagedAfter(old(Staged()), walk, minSize) && IsListed(x)
      ensures remaining == StagedAfter(old(Staged()), walk, minSize) - MovedNames(listing, categories, env, folders.Keys, dryRun, |listing|)
      ensures staging == if !dryRun && CountStaged(walk, minSize) > 0 && remaining == {} then None else Some(remaining)
      ensures folders == SortedFolders(WithFolders(old(folders), categories), listing, categories, env, dryRun, |listing|)
      ensures results == Tallies(categories, env, folders.Keys, dryRun, |listing|)
      ensures results.Keys == set c | c in categories
      ensures forall c :: c in results ==> results[c] >= 0
      ensures |listing| == 0 ==> forall c :: c in results ==> results[c] == 0
      ensures Total(results, Distinct(categories)) <= |listing| <= |old(Staged())| + CountStaged(walk, minSize)
      ensures forall c :: c in categories ==> c in folders
      ensures forall d :: d in old(folders) ==> d in folders && old(folders)[d] <= folders[d]
      ensures !dryRun ==> forall c :: c in results ==> |folders[c]| == |old(Contents(c))| + results[c]
      ensures dryRun ==> forall d :: d in old(folders) ==> folders[d] == old(folders)[d]
      ensures dryRun ==> staging.Some? && old(Staged()) <= Staged()
    {
      MakeCategoryDirs(categories);
      ghost var made := folders;
      var extracted := ExtractImages(walk, minSize);
      results, listing, remaining := SortStaged(categories, dryRun, env, extracted);
      SortedFoldersGrow(made, listing, categories, env, dryRun, |listing|);
      StagedAfterGrows(old(Staged()), walk, minSize);
      if !dryRun {
        forall c | c in results
          ensures |folders[c]| == |old(Contents(c))| + results[c]
        {
          SortedFoldersCount(made, listing, categories, env, |listing|, c);
        }
      }
    }
  }
}
