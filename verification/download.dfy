/** One file download (`download_file`): a non-200 response writes nothing;
    otherwise `data/<last URL segment>` is opened and the answers of
    `read(16 * 1024)` are written to it until the first empty read. */
module Download {
  import opened Numbers
  import opened Text

  newtype byte = b: int | 0 <= b < 256

  /** Size passed to every `read`: 16 * 1024 bytes. */
  const ChunkSize: nat := 16 * 1024

  /** Concatenation of chunks, in order. */
  function Concat(chunks: seq<seq<byte>>): seq<byte>
    decreases |chunks|
  {
    if chunks == [] then [] else Concat(chunks[..|chunks| - 1]) + chunks[|chunks| - 1]
  }

  lemma {:induction false} ConcatCons(c: seq<byte>, rest: seq<seq<byte>>)
    ensures Concat([c] + rest) == c + Concat(rest)
    decreases |rest|
  {
    if rest != [] {
      var r := [c] + rest;
      assert r[..|r| - 1] == [c] + rest[..|rest| - 1];
      ConcatCons(c, rest[..|rest| - 1]);
    } else {
      assert [c] + rest == [c];
      assert [c][..0] == [];
    }
  }

  /** A stream of reads reports end of data with an empty read. */
  predicate HasEof(stream: seq<seq<byte>>)
  {
    exists k :: 0 <= k < |stream| && stream[k] == []
  }

  /** Index of the first empty read: the number of chunks the loop writes. */
  function FirstEmpty(stream: seq<seq<byte>>): (k: nat)
    requires HasEof(stream)
    ensures k < |stream| && stream[k] == []
    ensures forall j :: 0 <= j < k ==> stream[j] != []
    decreases |stream|
  {
    if stream[0] == [] then 0
    else
      assert HasEof(stream[1..]) by {
        var k :| 0 <= k < |stream| && stream[k] == [];
        assert stream[1..][k - 1] == stream[k];
      }
      1 + FirstEmpty(stream[1..])
  }

  /** The loop of `download_file`: read, stop at the first empty read,
      otherwise write the chunk and count it. `stream` holds the successive
      results of `resp.content.read(16 * 1024)`. */
  method CopyChunks(stream: seq<seq<byte>>) returns (written: seq<byte>, count: nat)
    requires HasEof(stream)
    requires forall k :: 0 <= k < |stream| ==> |stream[k]| <= ChunkSize
    ensures count < |stream| && stream[count] == []
    ensures forall k :: 0 <= k < count ==> stream[k] != []
    ensures written == Concat(stream[..count])
    ensures |written| <= count * ChunkSize
  {
    written := [];
    count := 0;
    var k := 0;
    while true
      invariant 0 <= k < |stream|
      invariant count == k
      invariant forall j :: 0 <= j < k ==> stream[j] != []
      invariant written == Concat(stream[..k])
      invariant |written| <= count * ChunkSize
      decreases |stream| - k
    {
      var chunk := stream[k];
      if chunk == [] {
        break;
      }
      assert stream[..k + 1][..k] == stream[..k];
      written := written + chunk;
      count := count + 1;
      k := k + 1;
      if k == |stream| {
        var e :| 0 <= e < |stream| && stream[e] == [];
        assert false;
      }
    }
  }

  /** The non-empty answers a stream holding `body` gives to
      `read(16 * 1024)` once all of it has arrived: full chunks, then a
      shorter last one. */
  function BodyChunks(body: seq<byte>): (chunks: seq<seq<byte>>)
    ensures forall k :: 0 <= k < |chunks| ==> 0 < |chunks[k]| <= ChunkSize
    decreases |body|
  {
    if body == [] then []
    else
      var n := Min(ChunkSize, |body|);
      [body[..n]] + BodyChunks(body[n..])
  }

  /** Every answer of that stream, the final empty read included. */
  function BodyReads(body: seq<byte>): seq<seq<byte>>
  {
    BodyChunks(body) + [[]]
  }

  /** Behind non-empty chunks, the first empty read is the final one. */
  lemma FirstEmptyAfterChunks(chunks: seq<seq<byte>>)
    requires forall k :: 0 <= k < |chunks| ==> chunks[k] != []
    ensures HasEof(chunks + [[]])
    ensures FirstEmpty(chunks + [[]]) == |chunks|
  {
    var s := chunks + [[]];
    assert s[|chunks|] == [];
  }

  /** Reading a whole body takes `ceil(|body| / 16 KiB)` chunks. */
  lemma {:induction false} BodyChunksCount(body: seq<byte>)
    ensures |BodyChunks(body)| == CeilDiv(|body|, ChunkSize)
    decreases |body|
  {
    if body != [] {
      var n := Min(ChunkSize, |body|);
      BodyChunksCount(body[n..]);
      assert CeilDiv(|body|, ChunkSize) == 1 + CeilDiv(|body| - n, ChunkSize);
    }
  }

  /** The chunks rebuild the body. */
  lemma {:induction false} BodyChunksConcat(body: seq<byte>)
    ensures Concat(BodyChunks(body)) == body
    decreases |body|
  {
    if body != [] {
      var n := Min(ChunkSize, |body|);
      BodyChunksConcat(body[n..]);
      ConcatCons(body[..n], BodyChunks(body[n..]));
      assert body[..n] + body[n..] == body;
    }
  }

  /** Copying a whole body: the loop stops after `ceil(|body| / 16 KiB)`
      chunks of at most 16 KiB, and what it wrote is the body. */
  lemma BodyReadsDrain(body: seq<byte>)
    ensures var stream := BodyReads(body);
      && HasEof(stream)
      && FirstEmpty(stream) == CeilDiv(|body|, ChunkSize)
      && Concat(stream[..FirstEmpty(stream)]) == body
      && forall k :: 0 <= k < |stream| ==> |stream[k]| <= ChunkSize
  {
    var chunks := BodyChunks(body);
    FirstEmptyAfterChunks(chunks);
    BodyChunksCount(body);
    BodyChunksConcat(body);
    assert BodyReads(body)[..|chunks|] == chunks;
  }

  /** The copy loop run against a fully arrived body: it writes the body
      back unchanged, in `ceil(|body| / 16 KiB)` chunks. */
  method CopyBody(body: seq<byte>) returns (written: seq<byte>, count: nat)
    ensures written == body
    ensures count == CeilDiv(|body|, ChunkSize)
  {
    BodyReadsDrain(body);
    written, count := CopyChunks(BodyReads(body));
  }

  /** A file response: its status and the successive non-final answers of
      `resp.content.read(16 * 1024)`. Once they are used up the connection
      reports end of data with an empty read. */
  datatype DownloadResponse = DownloadResponse(status: int, answers: seq<seq<byte>>)

  /** Every answer the response gives, the final empty read included. */
  function ReadStream(response: DownloadResponse): (stream: seq<seq<byte>>)
    ensures HasEof(stream)
  {
    var stream := response.answers + [[]];
    assert stream[|response.answers|] == [];
    stream
  }

  /** A response whose body has fully arrived: reads of 16 KiB until the
      last, shorter one. */
  function Arrived(status: int, body: seq<byte>): DownloadResponse
  {
    DownloadResponse(status, BodyChunks(body))
  }

  /** What a successful download leaves behind: the target path and the
      chunks written to it, in order. */
  datatype SavedFile = SavedFile(path: string, chunks: seq<seq<byte>>)

  /** How one `download_file` call ends: the status was not 200 and nothing
      was opened; the target names a directory (`data/`, `data/.` or
      `data/..`), so opening it for writing raises; or the file was
      written. */
  datatype DownloadOutcome =
    | NotFetched(status: int)
    | OpenFailed(path: string)
    | Saved(file: SavedFile)

  /** `url.split('/')[-1]`: the local file name. */
  function FileName(url: string): string
  {
    LastPart(url, '/')
  }

  /** The local target: `data/` followed by the file name. */
  function TargetPath(url: string): string
  {
    "data/" + FileName(url)
  }

  /** A file name that `data/` + name opens as a regular file: the empty
      name, `.` and `..` all name directories. */
  predicate NamesFile(name: string)
  {
    name != "" && name != "." && name != ".."
  }

  /** `download_file` with the session answering `response`: nothing unless
      the status is 200; then the target is opened; then the chunks the copy
      loop reads before the first empty read are written. */
  function DownloadFile(url: string, response: DownloadResponse): DownloadOutcome
  {
    if response.status != 200 then NotFetched(response.status)
    else if !NamesFile(FileName(url)) then OpenFailed(TargetPath(url))
    else
      var stream := ReadStream(response);
      Saved(SavedFile(TargetPath(url), stream[..FirstEmpty(stream)]))
  }

  /** A non-200 response writes nothing. A 200 response for a URL whose last
      segment is empty, `.` or `..` fails to open its target. Otherwise the
      file goes to `data/` + the URL text after its last `/` (which holds no
      `/`), and what is written is the leading non-empty reads, in order, up
      to the first empty read or the end of the stream; when no read exceeds
      16 KiB, no chunk does. */
  lemma DownloadFileSaves(url: string, response: DownloadResponse)
    ensures DownloadFile(url, response).NotFetched? <==> response.status != 200
    ensures DownloadFile(url, response).OpenFailed? <==>
      response.status == 200 && (FileName(url) == "" || FileName(url) == "." || FileName(url) == "..")
    ensures DownloadFile(url, response).OpenFailed? ==> DownloadFile(url, response).path == "data/" + FileName(url)
    ensures DownloadFile(url, response).Saved? ==>
      var saved := DownloadFile(url, response).file;
      var n := |saved.chunks|;
      && saved.path == "data/" + FileName(url)
      && '/' !in FileName(url)
      && EndsWith(url, FileName(url))
      && (|FileName(url)| < |url| ==> url[|url| - |FileName(url)| - 1] == '/')
      && n <= |response.answers|
      && saved.chunks == response.answers[..n]
      && (n == |response.answers| || response.answers[n] == [])
      && (forall k :: 0 <= k < n ==> saved.chunks[k] != [])
      && ((forall k :: 0 <= k < |response.answers| ==> |response.answers[k]| <= ChunkSize) ==>
            forall k :: 0 <= k < n ==> |saved.chunks[k]| <= ChunkSize)
  {
    LastPartIsFinalSegment(url, '/');
    if DownloadFile(url, response).Saved? {
      var stream := ReadStream(response);
      var n := FirstEmpty(stream);
      assert stream[..n] == response.answers[..n];
    }
  }

  /** Against a fully arrived body, a saved download holds exactly the body,
      in `ceil(|body| / 16 KiB)` non-empty chunks of at most 16 KiB. */
  lemma DownloadArrivedBody(url: string, body: seq<byte>)
    requires NamesFile(FileName(url))
    ensures DownloadFile(url, Arrived(200, body)).Saved?
    ensures var saved := DownloadFile(url, Arrived(200, body)).file;
      && Concat(saved.chunks) == body
      && |saved.chunks| == CeilDiv(|body|, ChunkSize)
      && forall k :: 0 <= k < |saved.chunks| ==> 0 < |saved.chunks[k]| <= ChunkSize
  {
    BodyReadsDrain(body);
    assert ReadStream(Arrived(200, body)) == BodyReads(body);
  }

  /** The link filter keeps only `.h5` URLs; their file names end in `.h5`,
      so they always name a file. */
  lemma H5FileName(url: string)
    requires EndsWith(url, ".h5")
    ensures EndsWith(FileName(url), ".h5")
    ensures NamesFile(FileName(url))
  {
    LastPartIsFinalSegment(url, '/');
    var name := FileName(url);
    if |name| < 3 {
      // The `/` before the name would fall inside the `.h5` suffix.
      assert false;
    }
    assert name[|name| - 3..] == url[|url| - 3..];
  }
}
