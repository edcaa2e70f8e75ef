// load_known_faces: the identity gallery built from a directory listing.
// Reading an image and computing its face encodings is the parameter
// `faceEncodings`, a function from file name to the encodings it yields.

module Gallery {

  predicate EndsWith(s: string, suffix: string) {
    |suffix| <= |s| && s[|s| - |suffix|..] == suffix
  }

  /** Case-sensitive test for the two accepted extensions. */
  predicate IsImageFile(f: string) {
    EndsWith(f, ".jpg") || EndsWith(f, ".png")
  }

  /** True when every character of s is a dot (also for the empty s). */
  predicate AllDots(s: string) {
    forall k :: 0 <= k < |s| ==> s[k] == '.'
  }

  /** The root part of os.path.splitext for an image file name: the
      four-character extension is cut off, except when only dots precede it
      (".jpg", "..png"), where the whole name is kept. */
  function Stem(f: string): (name: string)
    requires IsImageFile(f)
    ensures !AllDots(f[..|f| - 4]) ==> name + f[|f| - 4..] == f && |name| == |f| - 4
    ensures AllDots(f[..|f| - 4]) ==> name == f
  {
    var root := f[..|f| - 4];
    if AllDots(root) then f else root
  }

  /** The image files of a listing, in listing order. */
  function ImageFiles(fs: seq<string>): (r: seq<string>)
    ensures forall k :: 0 <= k < |r| ==> IsImageFile(r[k]) && r[k] in fs
    ensures |r| <= |fs|
  {
    if |fs| == 0 then []
    else
      var f := fs[|fs| - 1];
      ImageFiles(fs[..|fs| - 1]) + (if IsImageFile(f) then [f] else [])
  }

  /** load_known_faces: one encoding and one name per image file, in listing
      order; the encoding is the first face found in that image. */
  method LoadKnownFaces<E>(filenames: seq<string>, faceEncodings: string -> seq<E>)
    returns (knownFaceEncodings: seq<E>, knownFaceNames: seq<string>)
    requires forall f :: f in filenames && IsImageFile(f) ==> |faceEncodings(f)| > 0
    ensures |knownFaceEncodings| == |knownFaceNames| == |ImageFiles(filenames)|
    ensures forall k :: 0 <= k < |knownFaceNames| ==>
      knownFaceNames[k] == Stem(ImageFiles(filenames)[k]) &&
      knownFaceEncodings[k] == faceEncodings(ImageFiles(filenames)[k])[0]
  {
    knownFaceEncodings, knownFaceNames := [], [];
    for i := 0 to |filenames|
      invariant |knownFaceEncodings| == |knownFaceNames| == |ImageFiles(filenames[..i])|
      invariant forall k :: 0 <= k < |knownFaceNames| ==>
        knownFaceNames[k] == Stem(ImageFiles(filenames[..i])[k]) &&
        knownFaceEncodings[k] == faceEncodings(ImageFiles(filenames[..i])[k])[0]
    {
      assert filenames[..i + 1][..i] == filenames[..i];
      var filename := filenames[i];
      if EndsWith(filename, ".jpg") || EndsWith(filename, ".png") {
        var knownFaceEncoding := faceEncodings(filename)[0];
        knownFaceEncodings := knownFaceEncodings + [knownFaceEncoding];
        knownFaceNames := knownFaceNames + [Stem(filename)];
      }
    }
    assert filenames[..|filenames|] == filenames;
  }

  /** A name is in the image list exactly when it is in the listing and has an
      accepted extension. */
  lemma {:induction false} ImageFilesExact(fs: seq<string>, f: string)
    ensures f in ImageFiles(fs) <==> f in fs && IsImageFile(f)
  {
    if |fs| > 0 {
      var init := fs[..|fs| - 1];
      ImageFilesExact(init, f);
      assert fs == init + [fs[|fs| - 1]];
    }
  }

  /** Selecting image files keeps listing order. */
  lemma {:induction false} ImageFilesAppend(a: seq<string>, b: seq<string>)
    ensures ImageFiles(a + b) == ImageFiles(a) + ImageFiles(b)
    decreases |b|
  {
    if |b| > 0 {
      var b' := b[..|b| - 1];
      assert (a + b)[..|a + b| - 1] == a + b';
      ImageFilesAppend(a, b');
    } else {
      assert a + b == a;
    }
  }

  /** Names from file names: ordinary stems, a dotted stem, and the
      dot-only and upper-case edge cases. */
  lemma StemExamples()
    ensures Stem("alice.jpg") == "alice"
    ensures Stem("bob.png") == "bob"
    ensures Stem("j.doe.jpg") == "j.doe"
    ensures Stem(".jpg") == ".jpg"
    ensures !IsImageFile("carol.JPG") && !IsImageFile("notes.txt")
  {
    assert "alice.jpg"[..5] == "alice" && "alice"[0] == 'a';
    assert "bob.png"[..3] == "bob" && "bob"[0] == 'b';
    assert "j.doe.jpg"[..5] == "j.doe" && "j.doe"[0] == 'j';
  }

  /** A listing with two images of one person and a text file: both images
      become gallery entries named "alice", in listing order. */
  lemma ListingExample()
    ensures ImageFiles(["alice.jpg", "notes.txt", "alice.png"]) == ["alice.jpg", "alice.png"]
    ensures Stem("alice.jpg") == Stem("alice.png") == "alice"
  {
    var fs := ["alice.jpg", "notes.txt", "alice.png"];
    assert fs[..2] == ["alice.jpg", "notes.txt"] && fs[..2][..1] == ["alice.jpg"] && fs[..2][..1][..0] == [];
    assert !IsImageFile("notes.txt");
    assert "alice.jpg"[..5] == "alice" && "alice.png"[..5] == "alice" && "alice"[0] == 'a';
  }
}
