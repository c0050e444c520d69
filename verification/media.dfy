/** The picture and video lists of the product forms: the upload checks
    (count caps, size caps, signature de-duplication) and the `mainImage`
    index kept in step with removals. */
module Media {
  import opened Text
  import opened Lists

  /** A browser `File`: its name, its size in bytes and its MIME type. */
  datatype File = File(name: string, size: nat, mime: string)

  /** The byte size above which the product form refuses a picture:
      5 MB of 1024 × 1024 bytes. */
  const MaxImageBytes: nat := 5 * 1024 * 1024

  /** The upload limits of the forms. */
  const MaxImages: nat := 10
  const MaxVideos: nat := 3

  /** `${file.name}-${file.size}-${file.type}`. */
  function Signature(f: File): (sig: string)
    ensures HasPrefix(sig, f.name)
  {
    f.name + "-" + Decimal(f.size) + "-" + f.mime
  }

  function Signatures(fs: seq<File>): (r: seq<string>)
    ensures |r| == |fs|
    ensures forall k :: 0 <= k < |fs| ==> r[k] == Signature(fs[k])
  {
    seq(|fs|, k requires 0 <= k < |fs| => Signature(fs[k]))
  }

  /** The signatures of a list of files, as a set. */
  function SignatureSet(fs: seq<File>): (r: set<string>)
    ensures forall k :: 0 <= k < |fs| ==> Signature(fs[k]) in r
  {
    set k | 0 <= k < |fs| :: Signature(fs[k])
  }

  /** The files of a batch the `forEach` keeps: a file whose signature is
      already in `seen` is dropped; a kept file's signature joins `seen`, so
      a later copy in the same batch is dropped too. */
  function FreshFiles(seen: set<string>, files: seq<File>): seq<File>
    decreases |files|
  {
    if files == [] then []
    else if Signature(files[0]) in seen then FreshFiles(seen, files[1..])
    else [files[0]] + FreshFiles(seen + {Signature(files[0])}, files[1..])
  }

  /** The kept files are a subsequence of the batch: nothing is invented
      and the input order is kept. */
  lemma {:induction false} FreshFilesInOrder(seen: set<string>, files: seq<File>)
    ensures IsSubsequence(FreshFiles(seen, files), files)
    decreases |files|
  {
    if files != [] {
      var f := files[0];
      if Signature(f) in seen {
        FreshFilesInOrder(seen, files[1..]);
      } else {
        FreshFilesInOrder(seen + {Signature(f)}, files[1..]);
      }
    }
  }

  /** No kept file repeats a signature from `seen`. */
  lemma {:induction false} FreshFilesAvoidSeen(seen: set<string>, files: seq<File>)
    ensures forall k :: 0 <= k < |FreshFiles(seen, files)| ==> Signature(FreshFiles(seen, files)[k]) !in seen
    decreases |files|
  {
    if files != [] {
      var f := files[0];
      if Signature(f) in seen {
        FreshFilesAvoidSeen(seen, files[1..]);
      } else {
        FreshFilesAvoidSeen(seen + {Signature(f)}, files[1..]);
      }
    }
  }

  /** No kept file repeats a signature from `seen`, and no two kept files
      share a signature. */
  lemma {:induction false} FreshFilesUnique(seen: set<string>, files: seq<File>)
    ensures forall k :: 0 <= k < |FreshFiles(seen, files)| ==> Signature(FreshFiles(seen, files)[k]) !in seen
    ensures NoDuplicates(Signatures(FreshFiles(seen, files)))
    decreases |files|
  {
    FreshFilesAvoidSeen(seen, files);
    if files != [] {
      var f := files[0];
      if Signature(f) in seen {
        FreshFilesUnique(seen, files[1..]);
      } else {
        var seen' := seen + {Signature(f)};
        FreshFilesUnique(seen', files[1..]);
        var rest := FreshFiles(seen', files[1..]);
        assert FreshFiles(seen, files) == [f] + rest;
        ConsKeepsSignaturesUnique(f, rest);
      }
    }
  }

  /** A file whose signature none of `rest` has can be put in front of it. */
  lemma ConsKeepsSignaturesUnique(f: File, rest: seq<File>)
    requires forall k :: 0 <= k < |rest| ==> Signature(rest[k]) != Signature(f)
    requires NoDuplicates(Signatures(rest))
    ensures NoDuplicates(Signatures([f] + rest))
  {
    var sr := Signatures([f] + rest);
    forall i, j | 0 <= i < j < |sr| ensures sr[i] != sr[j] {
      assert sr[j] == Signatures(rest)[j - 1] == Signature(rest[j - 1]);
      if i > 0 {
        assert sr[i] == Signatures(rest)[i - 1];
      }
    }
  }

  /** Every file of the batch is either a duplicate of `seen` or has its
      signature among the kept files. */
  lemma {:induction false} FreshFilesCover(seen: set<string>, files: seq<File>)
    ensures forall k :: 0 <= k < |files| ==>
      Signature(files[k]) in seen || Signature(files[k]) in Signatures(FreshFiles(seen, files))
    decreases |files|
  {
    if files != [] {
      var f, tail := files[0], files[1..];
      var seen' := if Signature(f) in seen then seen else seen + {Signature(f)};
      FreshFilesCover(seen', tail);
      var r := FreshFiles(seen, files);
      forall k | 0 <= k < |files|
        ensures Signature(files[k]) in seen || Signature(files[k]) in Signatures(r)
      {
        if Signature(files[k]) !in seen {
          KeptSignature(seen, files, k);
        }
      }
    }
  }

  /** One step of the above, for the file at index `k` whose signature is
      not in `seen`, given that the rest of the batch is covered. */
  lemma KeptSignature(seen: set<string>, files: seq<File>, k: nat)
    requires k < |files| && Signature(files[k]) !in seen
    requires forall j :: 0 <= j < |files[1..]| ==>
      var seen' := if Signature(files[0]) in seen then seen else seen + {Signature(files[0])};
      Signature(files[1..][j]) in seen' || Signature(files[1..][j]) in Signatures(FreshFiles(seen', files[1..]))
    ensures Signature(files[k]) in Signatures(FreshFiles(seen, files))
  {
    var f, tail := files[0], files[1..];
    var r := FreshFiles(seen, files);
    if Signature(f) in seen {
      assert r == FreshFiles(seen, tail);
      assert files[k] == tail[k - 1];
    } else {
      var rest := FreshFiles(seen + {Signature(f)}, tail);
      assert r == [f] + rest;
      assert Signatures(r) == [Signature(f)] + Signatures(rest);
      if k > 0 {
        assert files[k] == tail[k - 1];
      }
    }
  }

  /** A batch whose signatures are new and pairwise distinct is kept whole. */
  lemma {:induction false} FreshFilesKeepsDistinct(seen: set<string>, files: seq<File>)
    requires forall k :: 0 <= k < |files| ==> Signature(files[k]) !in seen
    requires NoDuplicates(Signatures(files))
    ensures FreshFiles(seen, files) == files
    decreases |files|
  {
    if files != [] {
      var f := files[0];
      var seen' := seen + {Signature(f)};
      forall k | 0 <= k < |files[1..]| ensures Signature(files[1..][k]) !in seen' {
        assert Signatures(files)[k + 1] != Signatures(files)[0];
      }
      assert Signatures(files[1..]) == Signatures(files)[1..];
      FreshFilesKeepsDistinct(seen', files[1..]);
    }
  }

  /** The upload handlers' `forEach`: walks the batch, keeps each file whose
      signature has not been seen and records it as seen; `duplicate` tells
      whether some file was dropped ('Duplicate … detected.'). */
  method SelectNewFiles(existing: seq<File>, files: seq<File>) returns (accepted: seq<File>, duplicate: bool)
    ensures accepted == FreshFiles(SignatureSet(existing), files)
    ensures duplicate <==> |accepted| < |files|
  {
    var seen := SignatureSet(existing);
    ghost var seen0 := seen;
    accepted := [];
    duplicate := false;
    var i := 0;
    while i < |files|
      invariant 0 <= i <= |files|
      invariant accepted + FreshFiles(seen, files[i..]) == FreshFiles(seen0, files)
      invariant |accepted| <= i
      invariant duplicate <==> |accepted| < i
    {
      var f := files[i];
      var sig := Signature(f);
      ghost var rest := files[i..];
      assert rest[0] == f && rest[1..] == files[i + 1..];
      assert FreshFiles(seen, rest) == if sig in seen then FreshFiles(seen, files[i + 1..])
        else [f] + FreshFiles(seen + {sig}, files[i + 1..]);
      if sig in seen {
        duplicate := true;
      } else {
        accepted := accepted + [f];
        seen := seen + {sig};
      }
      i := i + 1;
    }
    assert files[i..] == [];
    FreshFilesLength(seen0, files);
  }

  lemma {:induction false} FreshFilesLength(seen: set<string>, files: seq<File>)
    ensures |FreshFiles(seen, files)| <= |files|
    decreases |files|
  {
    if files != [] {
      FreshFilesLength(seen, files[1..]);
      FreshFilesLength(seen + {Signature(files[0])}, files[1..]);
    }
  }

  /** Appending the kept files to a list whose signatures are unique keeps
      them unique, and adds no more files than the batch holds. */
  lemma AppendFreshKeepsSignaturesUnique(existing: seq<File>, files: seq<File>)
    requires NoDuplicates(Signatures(existing))
    ensures NoDuplicates(Signatures(existing + FreshFiles(SignatureSet(existing), files)))
    ensures |existing + FreshFiles(SignatureSet(existing), files)| <= |existing| + |files|
  {
    var seen := SignatureSet(existing);
    var kept := FreshFiles(seen, files);
    FreshFilesUnique(seen, files);
    FreshFilesLength(seen, files);
    var all := Signatures(existing + kept);
    forall i, j | 0 <= i < j < |all| ensures all[i] != all[j] {
      if j < |existing| {
        assert all[i] == Signatures(existing)[i] && all[j] == Signatures(existing)[j];
      } else if i < |existing| {
        assert all[j] == Signature(kept[j - |existing|]);
        assert all[i] == Signature(existing[i]);
      } else {
        assert all[i] == Signatures(kept)[i - |existing|] && all[j] == Signatures(kept)[j - |existing|];
      }
    }
  }

  /** Removing a file keeps the signatures of the others unique. */
  lemma RemoveKeepsSignaturesUnique(fs: seq<File>, index: int)
    requires NoDuplicates(Signatures(fs))
    ensures NoDuplicates(Signatures(RemoveAt(fs, index)))
  {
    var r := RemoveAt(fs, index);
    if 0 <= index < |fs| {
      forall i, j | 0 <= i < j < |r| ensures Signatures(r)[i] != Signatures(r)[j] {
        var i' := if i < index then i else i + 1;
        var j' := if j < index then j else j + 1;
        assert Signatures(r)[i] == Signatures(fs)[i'] && Signatures(r)[j] == Signatures(fs)[j'];
      }
    }
  }

  /** `mainImage` is null or the index of a picture in a list of `n`. */
  predicate MainInRange(main: Option<int>, n: nat)
  {
    main.None? || 0 <= main.value < n
  }

  /** The `mainImage` update of the remove handlers: the removed picture's
      own index becomes 0, or null when no picture is left; a later index
      moves down by one; any other value stays. */
  function MainAfterRemoval(main: Option<int>, index: nat, remaining: nat): Option<int>
  {
    if main == Some(index) then (if remaining > 0 then Some(0) else None)
    else if main.Some? && main.value > index then Some(main.value - 1)
    else main
  }

  /** Removing a picture keeps `mainImage` null or in range, and unless the
      main picture itself was removed, it still designates the same picture. */
  lemma MainImageAfterRemoval<T>(images: seq<T>, main: Option<int>, index: nat)
    requires MainInRange(main, |images|)
    ensures MainInRange(MainAfterRemoval(main, index, |RemoveAt(images, index)|), |RemoveAt(images, index)|)
    ensures main.Some? && main.value != index ==>
      var m := MainAfterRemoval(main, index, |RemoveAt(images, index)|);
      m.Some? && 0 <= m.value < |RemoveAt(images, index)| && RemoveAt(images, index)[m.value] == images[main.value]
    ensures main.None? ==> MainAfterRemoval(main, index, |RemoveAt(images, index)|).None?
  {
  }
}
