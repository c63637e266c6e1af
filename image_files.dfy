/**
 * save_image: the file name derived from the product title, the collision probe over
 * the files that already exist, and the status-200 gate. The filesystem is the set of
 * paths that exist; streaming the body to disk is reduced to adding the chosen path.
 */
module ImageFiles {
  import opened Wrappers
  import opened PathText

  const Folder := "imagenes"
  const MaxStemLength := 10
  const IllegalChars := "<>:\"/\\|?*"

  predicate IsIllegal(c: char) {
    c in IllegalChars
  }

  /** `re.sub(r'[<>:"/\\|?*]', '', s)`: every illegal character deleted, the rest kept in order. */
  function StripIllegal(s: string): (r: string)
    ensures |r| <= |s|
    ensures forall i :: 0 <= i < |r| ==> !IsIllegal(r[i])
  {
    if s == [] then []
    else (if IsIllegal(s[0]) then [] else [s[0]]) + StripIllegal(s[1..])
  }

  /** Deleting illegal characters from a concatenation deletes them from each part. */
  lemma {:induction false} StripIllegalAppend(a: string, b: string)
    ensures StripIllegal(a + b) == StripIllegal(a) + StripIllegal(b)
  {
    if a != [] {
      assert (a + b)[0] == a[0];
      assert (a + b)[1..] == a[1..] + b;
      StripIllegalAppend(a[1..], b);
    } else {
      assert a + b == b;
    }
  }

  /** A string without illegal characters is left as it is. */
  lemma {:induction false} StripIllegalKeepsLegal(s: string)
    requires forall i :: 0 <= i < |s| ==> !IsIllegal(s[i])
    ensures StripIllegal(s) == s
  {
    if s != [] {
      StripIllegalKeepsLegal(s[1..]);
    }
  }

  /** Every legal character of the title survives, as often as it occurs. */
  lemma {:induction false} StripIllegalCounts(s: string, c: char)
    requires !IsIllegal(c)
    ensures multiset(StripIllegal(s))[c] == multiset(s)[c]
  {
    if s != [] {
      assert s == [s[0]] + s[1..];
      StripIllegalCounts(s[1..], c);
    }
  }

  /** The stem of the image file: illegal characters deleted, then `[:10]`. */
  function Sanitize(name: string): (r: string)
    ensures |r| <= MaxStemLength
    ensures forall i :: 0 <= i < |r| ==> !IsIllegal(r[i])
    ensures r <= StripIllegal(name)
    ensures |r| == if |StripIllegal(name)| < MaxStemLength then |StripIllegal(name)| else MaxStemLength
  {
    var clean := StripIllegal(name);
    if |clean| <= MaxStemLength then clean else clean[..MaxStemLength]
  }

  lemma SanitizeIdempotent(name: string)
    ensures Sanitize(Sanitize(name)) == Sanitize(name)
  {
    StripIllegalKeepsLegal(Sanitize(name));
  }

  /** `os.path.join("imagenes", stem + ".jpg")`. */
  function InitialPath(stem: string): (path: string)
    ensures Folder + "/" <= path
    ensures |path| == |stem| + 13 && path[|path| - 4..] == ".jpg"
    ensures path[|Folder| + 1..|path| - 4] == stem
  {
    Folder + "/" + stem + ".jpg"
  }

  /**
   * The k-th path the probe looks at: the initial path, then `f"{base}_{k}{ext}"` with
   * base and ext from splitting the initial path.
   */
  function Probe(stem: string, k: nat): (path: string)
    ensures k == 0 ==> path == InitialPath(stem)
    ensures k > 0 ==> |path| == |InitialPath(stem)| + 1 + |NatToString(k)|
    ensures k > 0 ==> SplitExt(InitialPath(stem)).0 + "_" <= path
    ensures k > 0 ==> var base := SplitExt(InitialPath(stem)).0;
      path[|base| + 1..|base| + 1 + |NatToString(k)|] == NatToString(k)
    ensures k > 0 ==> path[|path| - |SplitExt(InitialPath(stem)).1|..] == SplitExt(InitialPath(stem)).1
  {
    if k == 0 then InitialPath(stem)
    else
      var parts := SplitExt(InitialPath(stem));
      parts.0 + "_" + NatToString(k) + parts.1
  }

  /** The probe never looks at the same path twice. */
  lemma ProbeInjective(stem: string, i: nat, j: nat)
    requires Probe(stem, i) == Probe(stem, j)
    ensures i == j
  {
    var parts := SplitExt(InitialPath(stem));
    var base, ext := parts.0, parts.1;
    if i != 0 && j != 0 {
      var s := Probe(stem, i);
      assert s == base + "_" + NatToString(i) + ext;
      assert s == base + "_" + NatToString(j) + ext;
      assert |NatToString(i)| == |NatToString(j)|;
      assert s[|base| + 1..|s| - |ext|] == NatToString(i);
      assert s[|base| + 1..|s| - |ext|] == NatToString(j);
      NatToStringInjective(i, j);
    }
  }

  /** The paths the probe has looked at before its k-th step. */
  ghost function ProbedSet(stem: string, k: nat): set<string> {
    set j | 0 <= j < k :: Probe(stem, j)
  }

  lemma ProbedSetStep(stem: string, k: nat)
    ensures ProbedSet(stem, k + 1) == ProbedSet(stem, k) + {Probe(stem, k)}
    ensures Probe(stem, k) !in ProbedSet(stem, k)
  {
    if Probe(stem, k) in ProbedSet(stem, k) {
      var j :| 0 <= j < k && Probe(stem, j) == Probe(stem, k);
      ProbeInjective(stem, j, k);
    }
  }

  /**
   * The step at which the probe, having found steps 0 .. k-1 taken, stops: the first
   * step from k on whose path does not exist. It terminates because each step removes
   * one more existing path from those not yet looked at.
   */
  function FreeIndexFrom(existing: set<string>, stem: string, k: nat): (n: nat)
    requires ProbedSet(stem, k) <= existing
    ensures k <= n
    ensures Probe(stem, n) !in existing
    ensures forall j :: k <= j < n ==> Probe(stem, j) in existing
    decreases existing - ProbedSet(stem, k)
  {
    if Probe(stem, k) !in existing then k
    else
      ProbedSetStep(stem, k);
      FreeIndexFrom(existing, stem, k + 1)
  }

  function FreeIndex(existing: set<string>, stem: string): nat {
    FreeIndexFrom(existing, stem, 0)
  }

  /** The path save_image writes to. */
  function ChosenPath(existing: set<string>, stem: string): (path: string)
    ensures path !in existing
    ensures InitialPath(stem) !in existing ==> path == InitialPath(stem)
  {
    Probe(stem, FreeIndex(existing, stem))
  }

  /** The probe's result is the least step whose path is free, and nothing else. */
  lemma FreeIndexUnique(existing: set<string>, stem: string, n: nat)
    requires Probe(stem, n) !in existing
    requires forall j :: 0 <= j < n ==> Probe(stem, j) in existing
    ensures FreeIndex(existing, stem) == n
  {
  }

  /** The chosen path is free; it is the un-suffixed path exactly when that one is free. */
  lemma ChosenPathFree(existing: set<string>, stem: string)
    ensures ChosenPath(existing, stem) !in existing
    ensures ChosenPath(existing, stem) == InitialPath(stem) <==> InitialPath(stem) !in existing
  {
    if InitialPath(stem) !in existing {
      FreeIndexUnique(existing, stem, 0);
    }
  }

  /**
   * Saving under the same stem again and again, with none of the first n+1 candidates
   * there beforehand: after n saves the next one gets suffix n (none, `_1`, `_2`, ...).
   */
  lemma RepeatedSaves(existing: set<string>, stem: string, n: nat)
    requires forall j :: 0 <= j <= n ==> Probe(stem, j) !in existing
    ensures FreeIndex(existing + ProbedSet(stem, n), stem) == n
  {
    ProbedSetStep(stem, n);
    FreeIndexUnique(existing + ProbedSet(stem, n), stem, n);
  }

  predicate AllDots(s: string) {
    forall i :: 0 <= i < |s| ==> s[i] == '.'
  }

  /**
   * The candidate paths spelled out. A stem with a character other than '.' gives
   * `imagenes/<stem>_<k>.jpg`; an empty or all-dot stem has no extension by splitext,
   * so the suffix lands after ".jpg", e.g. `imagenes/.jpg_1`.
   */
  lemma ProbeShape(stem: string, k: nat)
    requires '/' !in stem
    requires k >= 1
    ensures !AllDots(stem) ==> Probe(stem, k) == Folder + "/" + stem + "_" + NatToString(k) + ".jpg"
    ensures AllDots(stem) ==> Probe(stem, k) == Folder + "/" + stem + ".jpg" + "_" + NatToString(k)
  {
    var p := InitialPath(stem);
    var sep := |Folder|;
    var dot := |p| - 4;
    assert p[sep] == '/';
    forall i | sep < i < |p|
      ensures p[i] != '/'
    {
      if i < dot {
        assert p[i] == stem[i - sep - 1];
      }
    }
    LastIndexOfAt(p, '/', sep);
    assert p[dot] == '.';
    LastIndexOfAt(p, '.', dot);
    if AllDots(stem) {
      forall i | sep < i < dot
        ensures p[i] == '.'
      {
        assert p[i] == stem[i - sep - 1];
      }
      assert SplitExt(p) == (p, []);
    } else {
      var j :| 0 <= j < |stem| && stem[j] != '.';
      assert p[sep + 1 + j] == stem[j];
      assert p[..dot] == Folder + "/" + stem;
      assert SplitExt(p) == (Folder + "/" + stem, ".jpg");
    }
  }

  /** A sanitised stem never contains '/', so the candidate paths above apply to it. */
  lemma SanitizedHasNoSlash(name: string)
    ensures '/' !in Sanitize(name)
  {
  }

  /** The candidate paths for a product title, whatever characters the title holds. */
  lemma SanitizedProbeShape(name: string, k: nat)
    requires k >= 1
    ensures var stem := Sanitize(name);
      Probe(stem, k) == if AllDots(stem) then Folder + "/" + stem + ".jpg" + "_" + NatToString(k)
                        else Folder + "/" + stem + "_" + NatToString(k) + ".jpg"
  {
    SanitizedHasNoSlash(name);
    ProbeShape(Sanitize(name), k);
  }

  /** With an empty title the probe's first suffixed path is "imagenes/.jpg_1". */
  lemma EmptyTitleProbe()
    ensures Probe(Sanitize(""), 1) == "imagenes/.jpg_1"
  {
    assert Sanitize("") == "";
    assert NatToString(1) == "1";
    ProbeShape("", 1);
  }

  /** Lines 43-49: the linear probe for a free path. */
  method UniquePath(stem: string, existing: set<string>) returns (filepath: string)
    ensures filepath !in existing
    ensures filepath == ChosenPath(existing, stem)
  {
    filepath := InitialPath(stem);
    var parts := SplitExt(filepath);
    var base, ext := parts.0, parts.1;
    var counter := 1;
    while filepath in existing
      invariant counter >= 1
      invariant filepath == Probe(stem, counter - 1)
      invariant ProbedSet(stem, counter - 1) <= existing
      invariant FreeIndexFrom(existing, stem, counter - 1) == FreeIndex(existing, stem)
      decreases existing - ProbedSet(stem, counter - 1)
    {
      ProbedSetStep(stem, counter - 1);
      filepath := base + "_" + NatToString(counter) + ext;
      counter := counter + 1;
    }
  }

  /**
   * save_image with the image fetch reduced to its status code: the path is chosen
   * first, and the file is written, and its path returned, only on status 200.
   */
  method SaveImage(status: int, productName: string, files: set<string>)
    returns (saved: Option<string>, files': set<string>)
    ensures saved.Some? <==> status == 200
    ensures saved.Some? ==> saved.value == ChosenPath(files, Sanitize(productName)) && saved.value !in files
    ensures files' == if saved.Some? then files + {saved.value} else files
  {
    var filepath := UniquePath(Sanitize(productName), files);
    if status == 200 {
      saved := Some(filepath);
      files' := files + {filepath};
    } else {
      saved := None;
      files' := files;
    }
  }
}
