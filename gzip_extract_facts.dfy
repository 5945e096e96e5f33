/**
 * What the output name keeps and removes, and what the per-file loop of
 * extract_gzip leaves behind: every file is attempted, the last file written
 * to a path wins, other paths are untouched, and every failure is reported.
 */
module GzipExtractFacts {
  import opened Wrappers
  import opened GzipExtract

  /** A name without ".gz" is its own output name. */
  lemma {:induction false} OutputNameKeeps(f: string)
    requires !ContainsGz(f)
    ensures OutputName(f) == f
    decreases |f|
  {
    if f != [] {
      assert !GzAt(f, 0);
      forall i | GzAt(f[1..], i)
        ensures false
      {
        assert f[1..][i..i + |GZ|] == f[i + 1..i + 1 + |GZ|];
        assert GzAt(f, i + 1);
      }
      OutputNameKeeps(f[1..]);
    }
  }

  /** A name with ".gz" somewhere loses at least that occurrence. */
  lemma {:induction false} OutputNameShrinks(f: string)
    requires ContainsGz(f)
    ensures |OutputName(f)| < |f|
    decreases |f|
  {
    if !GzAt(f, 0) {
      var i :| GzAt(f, i);
      assert f[1..][i - 1..i - 1 + |GZ|] == f[i..i + |GZ|];
      assert GzAt(f[1..], i - 1);
      OutputNameShrinks(f[1..]);
    }
  }

  /** The output name equals the input name exactly when the input has no ".gz". */
  lemma OutputNameIdentity(f: string)
    ensures OutputName(f) == f <==> !ContainsGz(f)
  {
    if ContainsGz(f) {
      OutputNameShrinks(f);
    } else {
      OutputNameKeeps(f);
    }
  }

  /** Appending ".gz" to a name does not change its output name. */
  lemma {:induction false} OutputNameAppendGz(f: string)
    ensures OutputName(f + GZ) == OutputName(f)
    decreases |f|
  {
    if f == [] {
      assert GzAt(f + GZ, 0);
      assert (f + GZ)[|GZ|..] == [];
    } else if GzAt(f, 0) {
      assert GzAt(f + GZ, 0);
      assert (f + GZ)[|GZ|..] == f[|GZ|..] + GZ;
      OutputNameAppendGz(f[|GZ|..]);
    } else {
      assert !GzAt(f + GZ, 0) by {
        if |f| >= |GZ| {
          assert (f + GZ)[..|GZ|] == f[..|GZ|];
        } else if |f| == 1 {
          assert (f + GZ)[0..|GZ|][1] == '.' != GZ[1];
        } else {
          assert (f + GZ)[0..|GZ|][2] == '.' != GZ[2];
        }
      }
      assert (f + GZ)[1..] == f[1..] + GZ;
      OutputNameAppendGz(f[1..]);
    }
  }

  /** A name that does not start with ".gz" keeps its first character. */
  lemma OutputNameKeepsFirst(c: char, f: string)
    requires !GzAt([c] + f, 0)
    ensures OutputName([c] + f) == [c] + OutputName(f)
  {
    assert ([c] + f)[1..] == f;
  }

  /** A leading ".gz" is dropped. */
  lemma OutputNameDropsFirst(f: string)
    ensures OutputName(GZ + f) == OutputName(f)
  {
    assert GzAt(GZ + f, 0) by {
      assert (GZ + f)[0..|GZ|] == GZ;
    }
    assert (GZ + f)[|GZ|..] == f;
  }

  /**
   * A ".gz" anywhere in a name is removed: the part before the first
   * occurrence is kept as it is, and the rest is handled the same way.
   */
  lemma {:induction false} OutputNameSplit(a: string, b: string)
    requires !ContainsGz(a)
    ensures OutputName(a + GZ + b) == a + OutputName(b)
    decreases |a|
  {
    if a == [] {
      assert a + GZ + b == GZ + b;
      OutputNameDropsFirst(b);
    } else {
      var f := a + GZ + b;
      assert !GzAt(f, 0) by {
        if |a| >= |GZ| {
          assert f[..|GZ|] == a[..|GZ|];
          assert !GzAt(a, 0);
        } else if |a| == 1 {
          assert f[0..|GZ|][1] == '.' != GZ[1];
        } else {
          assert f[0..|GZ|][2] == '.' != GZ[2];
        }
      }
      forall i | GzAt(a[1..], i)
        ensures false
      {
        assert a[1..][i..i + |GZ|] == a[i + 1..i + 1 + |GZ|];
        assert GzAt(a, i + 1);
      }
      assert f[1..] == a[1..] + GZ + b;
      OutputNameSplit(a[1..], b);
      assert a == [a[0]] + a[1..];
    }
  }

  /** ".gz" in the middle of a name goes too: "x.gzip" becomes "xip". */
  lemma OutputNameInner()
    ensures OutputName("x.gzip") == "xip"
  {
    assert OutputName("p") == "p";
    OutputNameKeepsFirst('i', "p");
    OutputNameDropsFirst("ip");
    assert GZ + "ip" == ".gzip";
    OutputNameKeepsFirst('x', ".gzip");
  }

  /**
   * Removing an occurrence can join the characters around it into a new
   * ".gz", which stays: "..gzgz" becomes ".gz".
   */
  lemma OutputNameNotIdempotent()
    ensures OutputName("..gzgz") == ".gz"
    ensures OutputName(OutputName("..gzgz")) == ""
  {
    assert OutputName("z") == "z";
    OutputNameKeepsFirst('g', "z");
    OutputNameDropsFirst("gz");
    assert GZ + "gz" == ".gzgz";
    OutputNameKeepsFirst('.', ".gzgz");
    OutputNameDropsFirst("");
    assert GZ + "" == ".gz";
  }

  /** A listed file whose outcome is a failure of either kind. */
  predicate FailedAt(names: seq<string>, outcomes: seq<FileOutcome>, i: int)
    requires |outcomes| == |names|
  {
    0 <= i < |names| && !outcomes[i].Copied?
  }

  /**
   * The reported failures are exactly the input paths of the files that
   * failed, wherever they are in the listing: a failure does not stop the
   * loop.
   */
  lemma {:induction false} ExtractedFailures(inDir: string, outDir: string, names: seq<string>,
                                             outcomes: seq<FileOutcome>, fs: map<string, seq<bv8>>, n: nat)
    requires |outcomes| == |names| && n <= |names|
    ensures forall x :: x in Extracted(inDir, outDir, names, outcomes, fs, n).failures <==>
      exists i :: i < n && FailedAt(names, outcomes, i) && x == inDir + names[i]
    decreases n
  {
    if n > 0 {
      ExtractedFailures(inDir, outDir, names, outcomes, fs, n - 1);
      var before := Extracted(inDir, outDir, names, outcomes, fs, n - 1).failures;
      var after := Extracted(inDir, outDir, names, outcomes, fs, n).failures;
      assert after == if outcomes[n - 1].Copied? then before else before + [inDir + names[n - 1]];
      forall x | x in after
        ensures exists i :: i < n && FailedAt(names, outcomes, i) && x == inDir + names[i]
      {
        if x in before {
          var i :| i < n - 1 && FailedAt(names, outcomes, i) && x == inDir + names[i];
        } else {
          assert FailedAt(names, outcomes, n - 1) && x == inDir + names[n - 1];
        }
      }
      forall i | i < n && FailedAt(names, outcomes, i)
        ensures inDir + names[i] in after
      {
        if i < n - 1 {
          assert inDir + names[i] in before;
        }
      }
    }
  }

  /**
   * The failure report lists the failed files in listing order, once each:
   * `idx` gives, for each report line, the position of its file, increasing,
   * and covers every failed file.
   */
  lemma {:induction false} ExtractedFailureOrder(inDir: string, outDir: string, names: seq<string>,
                                                 outcomes: seq<FileOutcome>, fs: map<string, seq<bv8>>, n: nat)
    returns (idx: seq<nat>)
    requires |outcomes| == |names| && n <= |names|
    ensures |idx| == |Extracted(inDir, outDir, names, outcomes, fs, n).failures|
    ensures forall k :: 0 <= k < |idx| ==>
      idx[k] < n && FailedAt(names, outcomes, idx[k]) && Extracted(inDir, outDir, names, outcomes, fs, n).failures[k] == inDir + names[idx[k]]
    ensures forall k, l :: 0 <= k < l < |idx| ==> idx[k] < idx[l]
    ensures forall i :: 0 <= i < n && FailedAt(names, outcomes, i) ==> i in idx
    decreases n
  {
    if n == 0 {
      idx := [];
    } else {
      var prev := ExtractedFailureOrder(inDir, outDir, names, outcomes, fs, n - 1);
      var before := Extracted(inDir, outDir, names, outcomes, fs, n - 1).failures;
      var after := Extracted(inDir, outDir, names, outcomes, fs, n).failures;
      if outcomes[n - 1].Copied? {
        assert after == before;
        idx := prev;
      } else {
        assert after == before + [inDir + names[n - 1]];
        idx := prev + [n - 1];
      }
    }
  }

  /** The paths the loop writes to: one per file whose output file was created. */
  ghost function OutputPaths(outDir: string, names: seq<string>, outcomes: seq<FileOutcome>, n: nat): set<string>
    requires |outcomes| == |names| && n <= |names|
  {
    set i | 0 <= i < n && OpensOutput(outcomes[i]) :: outDir + OutputName(names[i])
  }

  /** The loop adds exactly the output paths to the file system. */
  lemma {:induction false} ExtractedPaths(inDir: string, outDir: string, names: seq<string>,
                                          outcomes: seq<FileOutcome>, fs: map<string, seq<bv8>>, n: nat)
    requires |outcomes| == |names| && n <= |names|
    ensures Extracted(inDir, outDir, names, outcomes, fs, n).files.Keys == fs.Keys + OutputPaths(outDir, names, outcomes, n)
    decreases n
  {
    if n > 0 {
      ExtractedPaths(inDir, outDir, names, outcomes, fs, n - 1);
      var o := outcomes[n - 1];
      if OpensOutput(o) {
        assert OutputPaths(outDir, names, outcomes, n) ==
          OutputPaths(outDir, names, outcomes, n - 1) + {outDir + OutputName(names[n - 1])};
      } else {
        assert OutputPaths(outDir, names, outcomes, n) == OutputPaths(outDir, names, outcomes, n - 1);
      }
    }
  }

  /** A path no file was written to keeps what it held. */
  lemma {:induction false} ExtractedUntouched(inDir: string, outDir: string, names: seq<string>,
                                              outcomes: seq<FileOutcome>, fs: map<string, seq<bv8>>, n: nat,
                                              path: string)
    requires |outcomes| == |names| && n <= |names|
    requires path in fs
    requires forall i :: 0 <= i < n && OpensOutput(outcomes[i]) ==> path != outDir + OutputName(names[i])
    ensures path in Extracted(inDir, outDir, names, outcomes, fs, n).files
    ensures Extracted(inDir, outDir, names, outcomes, fs, n).files[path] == fs[path]
    decreases n
  {
    if n > 0 {
      ExtractedUntouched(inDir, outDir, names, outcomes, fs, n - 1, path);
    }
  }

  /**
   * The output file of file i holds what file i wrote, unless a later file
   * with the same output name was written over it.
   */
  lemma {:induction false} ExtractedLastWriter(inDir: string, outDir: string, names: seq<string>,
                                               outcomes: seq<FileOutcome>, fs: map<string, seq<bv8>>,
                                               i: nat, n: nat)
    requires |outcomes| == |names| && i < n <= |names|
    requires OpensOutput(outcomes[i])
    requires forall j :: i < j < n && OpensOutput(outcomes[j]) ==> OutputName(names[j]) != OutputName(names[i])
    ensures outDir + OutputName(names[i]) in Extracted(inDir, outDir, names, outcomes, fs, n).files
    ensures Extracted(inDir, outDir, names, outcomes, fs, n).files[outDir + OutputName(names[i])] == Written(outcomes[i])
    decreases n
  {
    if i < n - 1 {
      ExtractedLastWriter(inDir, outDir, names, outcomes, fs, i, n - 1);
      var j := n - 1;
      if OpensOutput(outcomes[j]) {
        assert (outDir + OutputName(names[j]))[|outDir|..] == OutputName(names[j]);
        assert (outDir + OutputName(names[i]))[|outDir|..] == OutputName(names[i]);
      }
    }
  }
}
