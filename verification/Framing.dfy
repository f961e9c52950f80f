/** The byte stream a Pack's digest is taken of: paths and bodies framed by NULs and a decimal length. */
module Framing {
  import opened Wrappers
  import opened Order
  import opened Decimal

  const NUL: nat := 0

  type Bytes = seq<nat>

  datatype File = File(path: Bytes, body: Bytes)

  datatype HashError = ChangedDuringHashing(path: Text)

  /** A text encoding as the framing needs it of these paths: injective, and introducing no NUL byte. */
  ghost predicate FaithfulEncoding(utf8: Text -> Bytes, paths: set<Text>) {
    && (forall p, q | p in paths && q in paths :: utf8(p) == utf8(q) ==> p == q)
    && (forall p | p in paths && NUL !in p :: NUL !in utf8(p))
  }

  function Members(paths: seq<Text>): set<Text> { set p | p in paths }

  function Frame(f: File): Bytes {
    f.path + [NUL] + Render(|f.body|) + [NUL] + f.body + [NUL]
  }

  /** The file `a` of the two bytes `b` and NUL: its path, a NUL, `2`, a NUL, the bytes and a NUL. */
  lemma FrameOfTwoBytes()
    ensures Frame(File([97], [98, 0])) == [97, 0, 50, 0, 98, 0, 0]
  {
    assert Render(2) == [50];
  }

  function Frames(files: seq<File>): Bytes {
    if |files| == 0 then [] else Frame(files[0]) + Frames(files[1..])
  }

  /** What is before the first NUL, and what is after it. */
  function Cut(s: Bytes): (r: Option<(Bytes, Bytes)>)
    ensures r.Some? ==> |r.value.1| < |s|
  {
    var i := IndexOf(s, NUL);
    if i == |s| then None else Some((s[..i], s[i + 1..]))
  }

  /** Taking a body of `n` bytes and the NUL that ends it. */
  function Take(s: Bytes, n: nat): (r: Option<(Bytes, Bytes)>)
    ensures r.Some? ==> |r.value.1| < |s|
  {
    if |s| <= n || s[n] != NUL then None else Some((s[..n], s[n + 1..]))
  }

  /** Reading one frame off the stream: a file and what follows it. */
  function Unframe(s: Bytes): (r: Option<(File, Bytes)>)
    ensures r.Some? ==> |r.value.1| < |s|
  {
    var path := Cut(s);
    if path.None? then None else
    var size := Cut(path.value.1);
    if size.None? || !IsNumeric(size.value.0) then None else
    var body := Take(size.value.1, Value(size.value.0));
    if body.None? then None else Some((File(path.value.0, body.value.0), body.value.1))
  }

  function Decode(s: Bytes): Option<seq<File>>
    decreases |s|
  {
    if |s| == 0 then Some([]) else
    match Unframe(s)
    case None => None
    case Some((f, rest)) =>
      match Decode(rest)
      case None => None
      case Some(files) => Some([f] + files)
  }

  lemma CutSplits(p: Bytes, rest: Bytes)
    requires NUL !in p
    ensures Cut(p + [NUL] + rest) == Some((p, rest))
  {
    var t := p + [NUL] + rest;
    assert t[|p|] == NUL;
    assert forall k | 0 <= k < |p| :: t[k] == p[k];
    assert IndexOf(t, NUL) == |p|;
    assert t[..|p|] == p && t[|p| + 1..] == rest;
  }

  lemma TakeSplits(body: Bytes, rest: Bytes)
    ensures Take(body + [NUL] + rest, |body|) == Some((body, rest))
  {
    var t := body + [NUL] + rest;
    assert t[..|body|] == body && t[|body| + 1..] == rest;
  }

  lemma FrameNests(f: File, rest: Bytes)
    ensures Frame(f) + rest == f.path + [NUL] + (Render(|f.body|) + [NUL] + (f.body + [NUL] + rest))
  {
    var size := Render(|f.body|);
    Associative(f.path + [NUL], size, [NUL]);
    Associative(f.path + [NUL], size + [NUL], f.body);
    Associative(f.path + [NUL], size + [NUL] + f.body, [NUL]);
    Associative(f.path + [NUL], size + [NUL] + f.body + [NUL], rest);
    Associative(size + [NUL], f.body, [NUL]);
    Associative(size + [NUL], f.body + [NUL], rest);
  }

  lemma UnframeFrame(f: File, rest: Bytes)
    requires NUL !in f.path
    ensures Unframe(Frame(f) + rest) == Some((f, rest))
  {
    RenderValue(|f.body|);
    FrameNests(f, rest);
    var tail := f.body + [NUL] + rest;
    var sized := Render(|f.body|) + [NUL] + tail;
    CutSplits(f.path, sized);
    CutSplits(Render(|f.body|), tail);
    TakeSplits(f.body, rest);
  }

  lemma DecodeOneMore(s: Bytes, f: File, rest: Bytes)
    requires Unframe(s) == Some((f, rest)) && Decode(rest).Some?
    ensures Decode(s) == Some([f] + Decode(rest).value)
  {
    assert |s| > 0;
  }

  /** The framing has a left inverse, whatever the bodies contain. */
  lemma {:induction false} DecodeFrames(files: seq<File>)
    requires forall i | 0 <= i < |files| :: NUL !in files[i].path
    ensures Decode(Frames(files)) == Some(files)
  {
    if |files| > 0 {
      var rest := files[1..];
      UnframeFrame(files[0], Frames(rest));
      DecodeFrames(rest);
      DecodeOneMore(Frame(files[0]) + Frames(rest), files[0], Frames(rest));
      assert [files[0]] + rest == files;
    }
  }

  // ---- hashing ----

  function FileAt(path: Text, disk: map<Text, Bytes>, utf8: Text -> Bytes): File {
    File(utf8(path), if path in disk then disk[path] else [])
  }

  function FilesOf(paths: seq<Text>, disk: map<Text, Bytes>, utf8: Text -> Bytes): (files: seq<File>)
    ensures |files| == |paths|
    ensures forall i | 0 <= i < |paths| :: files[i] == FileAt(paths[i], disk, utf8)
  {
    if |paths| == 0 then []
    else FilesOf(paths[..|paths| - 1], disk, utf8) + [FileAt(paths[|paths| - 1], disk, utf8)]
  }

  lemma Associative(a: Bytes, b: Bytes, c: Bytes)
    ensures a + b + c == a + (b + c)
  {
  }

  lemma {:induction false} FramesSnoc(files: seq<File>, f: File)
    ensures Frames(files + [f]) == Frames(files) + Frame(f)
  {
    if |files| == 0 {
      assert files + [f] == [f];
      assert [f][1..] == [];
    } else {
      FramesSnoc(files[1..], f);
      assert (files + [f])[1..] == files[1..] + [f];
      assert (files + [f])[0] == files[0];
      Associative(Frame(files[0]), Frames(files[1..]), Frame(f));
    }
  }

  /** The six `hash.update` calls of one round write one frame. */
  method UpdateWithFile(before: Bytes, path: Bytes, body: Bytes) returns (stream: Bytes)
    ensures stream == before + Frame(File(path, body))
  {
    stream := before + path;
    stream := stream + [NUL];
    stream := stream + Render(|body|);
    stream := stream + [NUL];
    stream := stream + body;
    stream := stream + [NUL];
  }

  lemma FramesOneMore(sorted: seq<Text>, i: nat, disk: map<Text, Bytes>, utf8: Text -> Bytes)
    requires i < |sorted| && forall k | 0 <= k <= i :: sorted[k] in disk
    ensures Frames(FilesOf(sorted[..i + 1], disk, utf8))
         == Frames(FilesOf(sorted[..i], disk, utf8)) + Frame(FileAt(sorted[i], disk, utf8))
  {
    assert sorted[..i + 1][..i] == sorted[..i];
    FramesSnoc(FilesOf(sorted[..i], disk, utf8), FileAt(sorted[i], disk, utf8));
  }

  method FrameInOrder(sorted: seq<Text>, disk: map<Text, Bytes>, utf8: Text -> Bytes)
    returns (r: Result<Bytes, HashError>)
    ensures r.Ok? <==> forall k | 0 <= k < |sorted| :: sorted[k] in disk
    ensures r.Ok? ==> r.value == Frames(FilesOf(sorted, disk, utf8))
  {
    var stream: Bytes := [];
    for i := 0 to |sorted|
      invariant forall k | 0 <= k < i :: sorted[k] in disk
      invariant stream == Frames(FilesOf(sorted[..i], disk, utf8))
    {
      var relative := sorted[i];
      if relative !in disk {
        return Err(ChangedDuringHashing(relative));
      }
      stream := UpdateWithFile(stream, utf8(relative), disk[relative]);
      FramesOneMore(sorted, i, disk, utf8);
    }
    assert sorted[..|sorted|] == sorted;
    return Ok(stream);
  }

  /** `hashPackFiles`, up to the digest: what has been passed to `hash.update`, in order. */
  method HashedStream(paths: seq<Text>, disk: map<Text, Bytes>, utf8: Text -> Bytes)
    returns (r: Result<Bytes, HashError>)
    ensures r.Ok? <==> forall p | p in paths :: p in disk
    ensures r.Ok? ==> r.value == StreamOf(paths, disk, utf8)
  {
    SortPermutes(paths, TextLess);
    var sorted := Sort(paths, TextLess);
    r := FrameInOrder(sorted, disk, utf8);
    assert forall k | 0 <= k < |sorted| :: sorted[k] in paths;
  }

  /** The stream of a set of files, as `hashPackFiles` produces it. */
  function StreamOf(paths: seq<Text>, disk: map<Text, Bytes>, utf8: Text -> Bytes): Bytes {
    Frames(FilesOf(Sort(paths, TextLess), disk, utf8))
  }

  ghost predicate SameFiles(paths: seq<Text>, disk: map<Text, Bytes>, paths': seq<Text>, disk': map<Text, Bytes>)
    requires forall p | p in paths :: p in disk
    requires forall p | p in paths' :: p in disk'
  {
    && (forall p :: p in paths <==> p in paths')
    && (forall p | p in paths :: disk[p] == disk'[p])
  }

  /** Equal streams are exactly equal file sets; the order in which paths were enumerated never shows. */
  lemma StreamIdentifiesFiles(
    paths: seq<Text>, disk: map<Text, Bytes>, paths': seq<Text>, disk': map<Text, Bytes>, utf8: Text -> Bytes)
    requires FaithfulEncoding(utf8, Members(paths + paths'))
    requires Distinct(paths) && Distinct(paths')
    requires forall p | p in paths :: p in disk && NUL !in p
    requires forall p | p in paths' :: p in disk' && NUL !in p
    ensures StreamOf(paths, disk, utf8) == StreamOf(paths', disk', utf8)
       <==> SameFiles(paths, disk, paths', disk')
  {
    if StreamOf(paths, disk, utf8) == StreamOf(paths', disk', utf8) {
      EqualStreamsSameFiles(paths, disk, paths', disk', utf8);
    }
    if SameFiles(paths, disk, paths', disk') {
      SameFilesSameStream(paths, disk, paths', disk', utf8);
    }
  }

  lemma EqualStreamsSameFiles(
    paths: seq<Text>, disk: map<Text, Bytes>, paths': seq<Text>, disk': map<Text, Bytes>, utf8: Text -> Bytes)
    requires FaithfulEncoding(utf8, Members(paths + paths'))
    requires forall p | p in paths :: p in disk && NUL !in p
    requires forall p | p in paths' :: p in disk' && NUL !in p
    requires StreamOf(paths, disk, utf8) == StreamOf(paths', disk', utf8)
    ensures SameFiles(paths, disk, paths', disk')
  {
    SortPermutes(paths, TextLess);
    SortPermutes(paths', TextLess);
    assert Members(Sort(paths, TextLess) + Sort(paths', TextLess)) == Members(paths + paths');
    EqualStreams(Sort(paths, TextLess), disk, Sort(paths', TextLess), disk', utf8);
  }

  lemma SameFilesSameStream(
    paths: seq<Text>, disk: map<Text, Bytes>, paths': seq<Text>, disk': map<Text, Bytes>, utf8: Text -> Bytes)
    requires Distinct(paths) && Distinct(paths')
    requires forall p | p in paths :: p in disk
    requires forall p | p in paths' :: p in disk'
    requires SameFiles(paths, disk, paths', disk')
    ensures StreamOf(paths, disk, utf8) == StreamOf(paths', disk', utf8)
  {
    TextStrictTotal();
    SortIgnoresOrder(paths, paths', TextLess);
    SortPermutes(paths, TextLess);
    var s := Sort(paths, TextLess);
    forall i | 0 <= i < |s| ensures FileAt(s[i], disk, utf8) == FileAt(s[i], disk', utf8) {
      assert s[i] in paths;
    }
    assert FilesOf(s, disk, utf8) == FilesOf(s, disk', utf8);
  }

  lemma StreamDecodes(s: seq<Text>, disk: map<Text, Bytes>, utf8: Text -> Bytes, all: set<Text>)
    requires FaithfulEncoding(utf8, all) && Members(s) <= all
    requires forall p | p in s :: NUL !in p
    ensures Decode(Frames(FilesOf(s, disk, utf8))) == Some(FilesOf(s, disk, utf8))
  {
    var files := FilesOf(s, disk, utf8);
    forall i | 0 <= i < |files| ensures NUL !in files[i].path { assert s[i] in Members(s); }
    DecodeFrames(files);
  }

  lemma EqualStreams(s: seq<Text>, disk: map<Text, Bytes>, s': seq<Text>, disk': map<Text, Bytes>, utf8: Text -> Bytes)
    requires FaithfulEncoding(utf8, Members(s + s'))
    requires forall p | p in s :: p in disk && NUL !in p
    requires forall p | p in s' :: p in disk' && NUL !in p
    requires Frames(FilesOf(s, disk, utf8)) == Frames(FilesOf(s', disk', utf8))
    ensures s == s' && forall p | p in s :: disk[p] == disk'[p]
  {
    StreamDecodes(s, disk, utf8, Members(s + s'));
    StreamDecodes(s', disk', utf8, Members(s + s'));
    EqualFiles(s, disk, s', disk', utf8);
  }

  lemma EqualFiles(s: seq<Text>, disk: map<Text, Bytes>, s': seq<Text>, disk': map<Text, Bytes>, utf8: Text -> Bytes)
    requires FaithfulEncoding(utf8, Members(s + s'))
    requires (forall p | p in s :: p in disk) && (forall p | p in s' :: p in disk')
    requires FilesOf(s, disk, utf8) == FilesOf(s', disk', utf8)
    ensures s == s' && forall p | p in s :: disk[p] == disk'[p]
  {
    var files, files' := FilesOf(s, disk, utf8), FilesOf(s', disk', utf8);
    assert |s| == |s'|;
    forall i | 0 <= i < |s| ensures s[i] == s'[i] && disk[s[i]] == disk'[s[i]] {
      assert files[i] == files'[i];
      assert s[i] in Members(s + s') && s'[i] in Members(s + s');
    }
  }
}
