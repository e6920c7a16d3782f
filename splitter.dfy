/**
 * The splitter's `/split` handler: read one text object, cut its lines into at
 * most `chunks` contiguous ranges of `ceil(L / chunks)` lines, write each range
 * as a new object next to the input and answer with the chunk locators in the
 * order they were written.
 */
module Splitter {
  import opened Wrappers
  import opened Strings
  import opened Locator
  import opened Store
  import opened Http

  const DefaultChunks: nat := 3
  const MaxChunks: nat := 50
  const InvalidChunks: string := "invalid chunks (1..50)"
  const EmptyInput: string := "input file empty"

  // ---------------------------------------------------------------------------
  // Request checks (all answered with 400)
  // ---------------------------------------------------------------------------

  /** The `chunks` query value: absent means 3, otherwise an integer in 1..50. */
  function ParseChunkCount(q: string): (r: Result<nat, HttpError>)
    ensures r.Ok? ==> 1 <= r.value <= MaxChunks
    ensures r.Ok? ==> (q == "" && r.value == DefaultChunks) || (q != "" && Atoi(q) == Some(r.value as int))
    ensures r.Err? <==> q != "" && (Atoi(q).None? || Atoi(q).value < 1 || Atoi(q).value > MaxChunks as int)
    ensures r.Err? ==> r.error == HttpError(BadRequest, InvalidChunks)
  {
    if q == "" then Ok(DefaultChunks)
    else
      match Atoi(q)
      case None => Err(HttpError(BadRequest, InvalidChunks))
      case Some(v) =>
        if v < 1 || v > MaxChunks as int then Err(HttpError(BadRequest, InvalidChunks)) else Ok(v as nat)
  }

  /** Every count from 1 to 50, written in decimal, is accepted as itself. */
  lemma ParseChunkCountDecimal(v: nat)
    requires 1 <= v <= MaxChunks
    ensures ParseChunkCount(DecimalString(v)) == Ok(v)
  {
    AtoiDecimalString(v);
  }

  /** 0 and every count above 50 are rejected. */
  lemma ParseChunkCountOutOfRange(v: nat)
    requires v == 0 || v > MaxChunks
    ensures ParseChunkCount(DecimalString(v)) == Err(HttpError(BadRequest, InvalidChunks))
  {
    AtoiDecimalString(v);
  }

  /**
   * The checks made before the store is touched, in the handler's order: the
   * `s3` parameter is present, `chunks` is valid, the locator parses.
   */
  function CheckRequest(s3: string, chunks: string): (r: Result<(Ref, nat), HttpError>)
    ensures r.Ok? <==> s3 != "" && ParseChunkCount(chunks).Ok? && Parse(s3).Ok?
    ensures r.Ok? ==> r.value.0 == Parse(s3).value && r.value.1 == ParseChunkCount(chunks).value
    ensures r.Err? ==> r.error.status == BadRequest
    ensures s3 == "" ==> r == Err(HttpError(BadRequest, MissingLocator))
    ensures s3 != "" && ParseChunkCount(chunks).Err? ==> r == Err(ParseChunkCount(chunks).error)
    ensures s3 != "" && ParseChunkCount(chunks).Ok? && Parse(s3).Err? ==> r == Err(HttpError(BadRequest, Parse(s3).error.Message()))
  {
    if s3 == "" then Err(HttpError(BadRequest, MissingLocator))
    else
      match ParseChunkCount(chunks)
      case Err(e) => Err(e)
      case Ok(n) =>
        match Parse(s3)
        case Err(e) => Err(HttpError(BadRequest, e.Message()))
        case Ok(src) => Ok((src, n))
  }

  // ---------------------------------------------------------------------------
  // Chunk arithmetic
  // ---------------------------------------------------------------------------

  /** `chunkSize := (len(lines) + n - 1) / n`. */
  function ChunkSize(lineCount: nat, n: nat): nat
    requires n >= 1
  {
    (lineCount + n - 1) / n
  }

  /** `(a + b - 1) / b` is the ceiling of `a / b`. */
  lemma CeilDiv(a: nat, b: nat)
    requires a >= 1 && b >= 1
    ensures (a + b - 1) / b >= 1
    ensures ((a + b - 1) / b - 1) * b < a <= ((a + b - 1) / b) * b
  {
    var t := a + b - 1;
    var q, r := t / b, t % b;
    assert t == q * b + r && 0 <= r < b;
    assert (q - 1) * b == q * b - b;
  }

  lemma MulLe(i: nat, j: nat, c: nat)
    requires i <= j
    ensures i * c <= j * c
  {
    assert j * c == i * c + (j - i) * c;
  }

  /** The chunk size is the ceiling of L / n. */
  lemma ChunkSizeIsCeiling(lineCount: nat, n: nat)
    requires lineCount >= 1 && n >= 1
    ensures ChunkSize(lineCount, n) >= 1
    ensures (ChunkSize(lineCount, n) - 1) * n < lineCount <= ChunkSize(lineCount, n) * n
  {
    CeilDiv(lineCount, n);
  }

  /** How many chunks the loop writes: ceil(L / chunkSize). */
  function ChunkCount(lineCount: nat, n: nat): nat
    requires lineCount >= 1 && n >= 1
  {
    var cs := ChunkSize(lineCount, n);
    if cs == 0 then 0 else (lineCount + cs - 1) / cs
  }

  /** Iteration `i` writes a chunk exactly when its start offset is below L. */
  lemma ChunkEmitted(lineCount: nat, n: nat, i: nat)
    requires lineCount >= 1 && n >= 1
    ensures i * ChunkSize(lineCount, n) < lineCount <==> i < ChunkCount(lineCount, n)
  {
    ChunkSizeIsCeiling(lineCount, n);
    var cs := ChunkSize(lineCount, n);
    var c := ChunkCount(lineCount, n);
    CeilDiv(lineCount, cs);
    if i < c {
      MulLe(i, c - 1, cs);
    } else {
      MulLe(c, i, cs);
    }
  }

  /** Between 1 and n chunks are written. */
  lemma ChunkCountBounds(lineCount: nat, n: nat)
    requires lineCount >= 1 && n >= 1
    ensures 1 <= ChunkCount(lineCount, n) <= n
  {
    ChunkSizeIsCeiling(lineCount, n);
    CeilDiv(lineCount, ChunkSize(lineCount, n));
    if ChunkCount(lineCount, n) > n {
      ChunkEmitted(lineCount, n, n);
    }
  }

  /** With fewer lines than requested chunks every chunk is one line and fewer than n are written. */
  lemma FewerLinesThanChunks(lineCount: nat, n: nat)
    requires 1 <= lineCount < n
    ensures ChunkSize(lineCount, n) == 1
    ensures ChunkCount(lineCount, n) == lineCount < n
  {
    ChunkSizeIsCeiling(lineCount, n);
  }

  /** Fewer than n chunks can be written even when L >= n: 4 lines into 3 gives 2 chunks of 2. */
  lemma FewerChunksWithEnoughLines()
    ensures ChunkSize(4, 3) == 2 && ChunkCount(4, 3) == 2
  {
  }

  /** `from := i * chunkSize`. */
  function ChunkStart(lineCount: nat, n: nat, i: nat): nat
    requires n >= 1
  {
    i * ChunkSize(lineCount, n)
  }

  /** `to := min((i + 1) * chunkSize, len(lines))`. */
  function ChunkEnd(lineCount: nat, n: nat, i: nat): nat
    requires n >= 1
  {
    var to := (i + 1) * ChunkSize(lineCount, n);
    if to > lineCount then lineCount else to
  }

  /** Every written chunk covers a non-empty range of lines inside the text. */
  lemma ChunkRange(lineCount: nat, n: nat, i: nat)
    requires lineCount >= 1 && n >= 1 && i < ChunkCount(lineCount, n)
    ensures ChunkStart(lineCount, n, i) < ChunkEnd(lineCount, n, i) <= lineCount
  {
    ChunkEmitted(lineCount, n, i);
    assert (i + 1) * ChunkSize(lineCount, n) == i * ChunkSize(lineCount, n) + ChunkSize(lineCount, n);
  }

  /** Consecutive chunks meet: each one starts where the previous one ended. */
  lemma ChunksAdjacent(lineCount: nat, n: nat, i: nat)
    requires lineCount >= 1 && n >= 1 && i + 1 < ChunkCount(lineCount, n)
    ensures ChunkEnd(lineCount, n, i) == ChunkStart(lineCount, n, i + 1)
  {
    ChunkEmitted(lineCount, n, i + 1);
  }

  /** The last chunk ends at the last line. */
  lemma LastChunkEnd(lineCount: nat, n: nat)
    requires lineCount >= 1 && n >= 1
    ensures ChunkCount(lineCount, n) >= 1
    ensures ChunkEnd(lineCount, n, ChunkCount(lineCount, n) - 1) == lineCount
  {
    ChunkSizeIsCeiling(lineCount, n);
    CeilDiv(lineCount, ChunkSize(lineCount, n));
  }

  /** The lines of chunk `i`. */
  function ChunkLines(lines: seq<string>, n: nat, i: nat): (r: seq<string>)
    requires |lines| >= 1 && n >= 1 && i < ChunkCount(|lines|, n)
  {
    ChunkRange(|lines|, n, i);
    lines[ChunkStart(|lines|, n, i)..ChunkEnd(|lines|, n, i)]
  }

  /** The text of chunk `i`: its lines rejoined with line feeds. */
  function ChunkBody(lines: seq<string>, n: nat, i: nat): string
    requires |lines| >= 1 && n >= 1 && i < ChunkCount(|lines|, n)
  {
    JoinLines(ChunkLines(lines, n, i))
  }

  /** The texts of the first `k` chunks. */
  function ChunkBodies(lines: seq<string>, n: nat, k: nat): seq<string>
    requires |lines| >= 1 && n >= 1 && k <= ChunkCount(|lines|, n)
  {
    seq(k, i requires 0 <= i < k => ChunkBody(lines, n, i))
  }

  lemma ChunkBodiesSnoc(lines: seq<string>, n: nat, k: nat)
    requires |lines| >= 1 && n >= 1 && 1 <= k <= ChunkCount(|lines|, n)
    ensures ChunkBodies(lines, n, k) == ChunkBodies(lines, n, k - 1) + [ChunkBody(lines, n, k - 1)]
  {
  }

  /** Lines cut in two at `b` rejoin with one line feed at the cut. */
  lemma JoinAtCut(lines: seq<string>, b: nat, c: nat)
    requires 1 <= b < c <= |lines|
    ensures JoinLines(lines[..c]) == JoinLines(lines[..b]) + "\n" + JoinLines(lines[b..c])
  {
    assert lines[..b] + lines[b..c] == lines[..c];
    JoinLinesAppend(lines[..b], lines[b..c]);
  }

  /** The first `k` chunk texts rejoined give the lines up to the end of chunk `k - 1`. */
  lemma {:induction false} ChunkBodiesPrefix(lines: seq<string>, n: nat, k: nat)
    requires |lines| >= 1 && n >= 1 && 1 <= k <= ChunkCount(|lines|, n)
    ensures JoinLines(ChunkBodies(lines, n, k)) == JoinLines(lines[..ChunkEnd(|lines|, n, k - 1)])
  {
    var L := |lines|;
    if k == 1 {
      ChunkRange(L, n, 0);
      assert ChunkBodies(lines, n, 1) == [ChunkBody(lines, n, 0)];
      assert ChunkLines(lines, n, 0) == lines[..ChunkEnd(L, n, 0)];
    } else {
      ChunkBodiesPrefix(lines, n, k - 1);
      ChunkBodiesSnoc(lines, n, k);
      JoinLinesAppend(ChunkBodies(lines, n, k - 1), [ChunkBody(lines, n, k - 1)]);
      ChunksAdjacent(L, n, k - 2);
      ChunkRange(L, n, k - 2);
      ChunkRange(L, n, k - 1);
      JoinAtCut(lines, ChunkEnd(L, n, k - 2), ChunkEnd(L, n, k - 1));
    }
  }

  /** Joining all chunk texts in order with line feeds reproduces the lines exactly. */
  lemma ChunksReassemble(lines: seq<string>, n: nat)
    requires |lines| >= 1 && n >= 1
    ensures JoinLines(ChunkBodies(lines, n, ChunkCount(|lines|, n))) == JoinLines(lines)
  {
    LastChunkEnd(|lines|, n);
    ChunkBodiesPrefix(lines, n, ChunkCount(|lines|, n));
    assert lines[..|lines|] == lines;
  }

  /**
   * A text ending in a line feed keeps it: the final empty piece joins the
   * last chunk, so `a\nb\nc\n` in two chunks gives `a\nb` and `c\n`.
   */
  lemma TrailingNewlineKept(a: string, b: string, c: string)
    requires '\n' !in a && '\n' !in b && '\n' !in c
    ensures var lines := SplitLines(a + "\n" + b + "\n" + c + "\n");
      ChunkCount(|lines|, 2) == 2 && ChunkBodies(lines, 2, 2) == [a + "\n" + b, c + "\n"]
  {
    SplitFour(a, b, c);
    var lines := SplitLines(a + "\n" + b + "\n" + c + "\n");
    FourLinesInTwo(lines);
    HalvesOfFour(a, b, c, "");
    JoinTwo(a, b);
    JoinTwo(c, "");
    AppendEmpty(c + "\n");
  }

  lemma SplitFour(a: string, b: string, c: string)
    requires '\n' !in a && '\n' !in b && '\n' !in c
    ensures SplitLines(a + "\n" + b + "\n" + c + "\n") == [a, b, c, ""]
  {
    var tail := c + "\n";
    SplitAtFirst(c, "");
    AppendEmpty(tail);
    SplitAtFirst(b, tail);
    SplitAtFirst(a, b + "\n" + tail);
    Regroup(a, "\n", b, "\n", c, "\n");
    assert SplitLines("") == [""];
    ConsFour(a, b, c, "");
  }

  lemma FourLinesInTwo(lines: seq<string>)
    requires |lines| == 4
    ensures ChunkCount(4, 2) == 2
    ensures ChunkBodies(lines, 2, 2) == [JoinLines(lines[0..2]), JoinLines(lines[2..4])]
  {
    FourIntoTwo();
  }

  /**
   * A chunk's text can be empty although its range of lines is not:
   * `a\nb\n` in three chunks gives `a`, `b` and the empty final piece.
   */
  lemma EmptyChunkText(a: string, b: string)
    requires '\n' !in a && '\n' !in b
    ensures var lines := SplitLines(a + "\n" + b + "\n");
      ChunkCount(|lines|, 3) == 3 && ChunkBodies(lines, 3, 3) == [a, b, ""]
  {
    SplitThree(a, b);
    var lines := SplitLines(a + "\n" + b + "\n");
    ThreeIntoThree();
    ThirdsOfThree(a, b, "");
    assert ChunkLines(lines, 3, 0) == [a] && ChunkLines(lines, 3, 1) == [b] && ChunkLines(lines, 3, 2) == [""];
  }

  lemma SplitThree(a: string, b: string)
    requires '\n' !in a && '\n' !in b
    ensures SplitLines(a + "\n" + b + "\n") == [a, b, ""]
  {
    var tail := b + "\n";
    SplitAtFirst(b, "");
    AppendEmpty(tail);
    SplitAtFirst(a, tail);
    Regroup4(a, "\n", b, "\n");
    assert SplitLines("") == [""];
    ConsThree(a, b, "");
  }

  lemma FourIntoTwo()
    ensures ChunkCount(4, 2) == 2
    ensures ChunkStart(4, 2, 0) == 0 && ChunkEnd(4, 2, 0) == 2
    ensures ChunkStart(4, 2, 1) == 2 && ChunkEnd(4, 2, 1) == 4
  {
    assert ChunkSize(4, 2) == 2;
  }

  lemma ThreeIntoThree()
    ensures ChunkCount(3, 3) == 3
    ensures ChunkStart(3, 3, 0) == 0 && ChunkEnd(3, 3, 0) == 1
    ensures ChunkStart(3, 3, 1) == 1 && ChunkEnd(3, 3, 1) == 2
    ensures ChunkStart(3, 3, 2) == 2 && ChunkEnd(3, 3, 2) == 3
  {
    assert ChunkSize(3, 3) == 1;
  }

  lemma JoinTwo(a: string, b: string)
    ensures JoinLines([a, b]) == a + "\n" + b
  {
    assert [a, b][1..] == [b];
  }

  // ---------------------------------------------------------------------------
  // Chunk names
  // ---------------------------------------------------------------------------

  predicate IsBaseNameChar(c: char)
  {
    ('a' <= c <= 'z') || ('A' <= c <= 'Z') || ('0' <= c <= '9') || c == '-' || c == '_'
  }

  /** The text after the last `/` of a key (all of it when there is none). */
  function LastSegment(key: string): (r: string)
    ensures '/' !in r
    ensures |r| <= |key| && r == key[|key| - |r|..]
    ensures '/' !in key ==> r == key
    ensures '/' in key ==> |r| < |key| && key[|key| - |r| - 1] == '/'
  {
    match LastIndexOf(key, '/')
    case None => key
    case Some(i) => key[i + 1..]
  }

  /** `strings.TrimSuffix(name, ".txt")`. */
  function TrimTxt(name: string): (r: string)
    ensures r <= name
    ensures |name| >= 4 && name[|name| - 4..] == ".txt" ==> r + ".txt" == name
    ensures !(|name| >= 4 && name[|name| - 4..] == ".txt") ==> r == name
  {
    if |name| >= 4 && name[|name| - 4..] == ".txt" then name[..|name| - 4] else name
  }

  /** The `strings.Map` step: every character outside `[A-Za-z0-9_-]` becomes `_`. */
  function CleanBaseName(name: string): (r: string)
    ensures |r| == |name|
    ensures forall i :: 0 <= i < |name| ==> r[i] == (if IsBaseNameChar(name[i]) then name[i] else '_')
    ensures forall i :: 0 <= i < |r| ==> IsBaseNameChar(r[i])
  {
    seq(|name|, i requires 0 <= i < |name| => if IsBaseNameChar(name[i]) then name[i] else '_')
  }

  /** The name used when nothing of the key is left. */
  const FallbackBaseName: string := "input"

  lemma FallbackBaseNameClean()
    ensures |FallbackBaseName| == 5 && forall i :: 0 <= i < |FallbackBaseName| ==> IsBaseNameChar(FallbackBaseName[i])
  {
    assert FallbackBaseName == ['i', 'n', 'p', 'u', 't'];
  }

  /** `sanitizeBaseName`: "input/myfile.txt" becomes "myfile". */
  function SanitizeBaseName(key: string): (r: string)
    ensures |r| >= 1
    ensures forall i :: 0 <= i < |r| ==> IsBaseNameChar(r[i])
    ensures TrimTxt(LastSegment(key)) == "" ==> r == FallbackBaseName
    ensures var t := TrimTxt(LastSegment(key));
      t != "" ==> |r| == |t| && forall i :: 0 <= i < |t| ==> r[i] == (if IsBaseNameChar(t[i]) then t[i] else '_')
  {
    var name := CleanBaseName(TrimTxt(LastSegment(key)));
    if name == "" then
      FallbackBaseNameClean();
      FallbackBaseName
    else name
  }

  /** A key that is already a clean base name is kept as it is. */
  lemma SanitizeBaseNameKeepsClean(key: string)
    requires |key| >= 1 && forall i :: 0 <= i < |key| ==> IsBaseNameChar(key[i])
    ensures SanitizeBaseName(key) == key
  {
    assert '/' !in key;
    assert LastSegment(key) == key;
    if |key| >= 4 {
      assert key[|key| - 4..][0] == key[|key| - 4];
    }
    assert TrimTxt(key) == key;
  }

  /** Sanitizing twice is sanitizing once. */
  lemma SanitizeBaseNameIdempotent(key: string)
    ensures SanitizeBaseName(SanitizeBaseName(key)) == SanitizeBaseName(key)
  {
    SanitizeBaseNameKeepsClean(SanitizeBaseName(key));
  }

  /** `fmt.Sprintf("%s/%s_%s_chunk%02d.txt", outPrefix, baseName, ts, i)`. */
  function ChunkKey(prefix: string, base: string, ts: string, i: nat): string
  {
    prefix + "/" + base + "_" + ts + "_chunk" + ZeroPad2(i) + ".txt"
  }

  /**
   * A chunk key lies under the output prefix, carries the base name after it,
   * the two index digits before the extension, and ends in `.txt`.
   */
  lemma ChunkKeyShape(prefix: string, base: string, ts: string, i: nat)
    requires i < 100
    ensures var k := ChunkKey(prefix, base, ts, i);
      |k| == |prefix| + |base| + |ts| + 14
      && k[..|prefix|] == prefix && k[|prefix|] == '/'
      && k[|prefix| + 1..|prefix| + 1 + |base|] == base
      && k[|k| - 6..|k| - 4] == ZeroPad2(i)
      && k[|k| - 4..] == ".txt"
  {
    ZeroPad2Length(i);
    var x := prefix + "/" + base + "_" + ts + "_chunk";
    var k := ChunkKey(prefix, base, ts, i);
    assert k == x + ZeroPad2(i) + ".txt";
    assert k[..|prefix|] == prefix;
    assert k[|prefix| + 1..|prefix| + 1 + |base|] == base;
    assert k[|k| - 6..|k| - 4] == ZeroPad2(i);
    assert k[|k| - 4..] == ".txt";
  }

  /** Chunk keys of one request differ in their two index digits, so no chunk overwrites another. */
  lemma ChunkKeyInjective(prefix: string, base: string, ts: string, i: nat, j: nat)
    requires i < 100 && j < 100
    requires ChunkKey(prefix, base, ts, i) == ChunkKey(prefix, base, ts, j)
    ensures i == j
  {
    var x := prefix + "/" + base + "_" + ts + "_chunk";
    ZeroPad2Length(i);
    ZeroPad2Length(j);
    assert ChunkKey(prefix, base, ts, i)[|x|..|x| + 2] == ZeroPad2(i);
    assert ChunkKey(prefix, base, ts, j)[|x|..|x| + 2] == ZeroPad2(j);
    ZeroPad2Injective(i, j);
  }

  // ---------------------------------------------------------------------------
  // The writes of one request
  // ---------------------------------------------------------------------------

  datatype Write = Write(target: Ref, body: string)

  /** Chunk `i` of the lines of a source object `src`: its address and its text. */
  function ChunkWrite(src: Ref, base: string, lines: seq<string>, n: nat, prefix: string, ts: string, i: nat): Write
    requires |lines| >= 1 && n >= 1 && i < ChunkCount(|lines|, n)
  {
    Write(Ref(src.bucket, ChunkKey(prefix, base, ts, i)), ChunkBody(lines, n, i))
  }

  /** The first `k` chunk writes, in order. */
  function WritesUpTo(src: Ref, base: string, lines: seq<string>, n: nat, prefix: string, ts: string, k: nat): (r: seq<Write>)
    requires |lines| >= 1 && n >= 1 && k <= ChunkCount(|lines|, n)
    ensures |r| == k
  {
    if k == 0 then [] else WritesUpTo(src, base, lines, n, prefix, ts, k - 1) + [ChunkWrite(src, base, lines, n, prefix, ts, k - 1)]
  }

  /** Write `i` of the first `k` is chunk `i`. */
  lemma {:induction false} WritesUpToAt(src: Ref, base: string, lines: seq<string>, n: nat, prefix: string, ts: string, k: nat, i: nat)
    requires |lines| >= 1 && n >= 1 && i < k <= ChunkCount(|lines|, n)
    ensures WritesUpTo(src, base, lines, n, prefix, ts, k)[i] == ChunkWrite(src, base, lines, n, prefix, ts, i)
  {
    var front := WritesUpTo(src, base, lines, n, prefix, ts, k - 1);
    SnocAt(front, ChunkWrite(src, base, lines, n, prefix, ts, k - 1), i);
    if i < k - 1 {
      WritesUpToAt(src, base, lines, n, prefix, ts, k - 1, i);
    }
  }

  /** The first `i` writes of the first `k` are the first `i` writes. */
  lemma {:induction false} WritesUpToPrefix(src: Ref, base: string, lines: seq<string>, n: nat, prefix: string, ts: string, k: nat, i: nat)
    requires |lines| >= 1 && n >= 1 && i <= k <= ChunkCount(|lines|, n)
    ensures WritesUpTo(src, base, lines, n, prefix, ts, k)[..i] == WritesUpTo(src, base, lines, n, prefix, ts, i)
  {
    if i < k {
      WritesUpToPrefix(src, base, lines, n, prefix, ts, k - 1, i);
      TakeSnoc(WritesUpTo(src, base, lines, n, prefix, ts, k - 1), ChunkWrite(src, base, lines, n, prefix, ts, k - 1), i);
    }
  }

  /** The chunk objects written for the lines of a source object `src`, in order. */
  function LinesWrites(src: Ref, base: string, lines: seq<string>, n: nat, prefix: string, ts: string): seq<Write>
    requires |lines| >= 1 && n >= 1
  {
    WritesUpTo(src, base, lines, n, prefix, ts, ChunkCount(|lines|, n))
  }

  /** The chunk objects a request on `src` holding `data` with `n` chunks writes, in order. */
  function ChunkWrites(src: Ref, data: string, n: nat, prefix: string, ts: string): seq<Write>
    requires n >= 1
  {
    LinesWrites(src, SanitizeBaseName(src.key), SplitLines(data), n, prefix, ts)
  }

  /** Write `i` of a request, spelled out the way the handler's loop computes it. */
  lemma LinesWriteAt(src: Ref, base: string, lines: seq<string>, n: nat, prefix: string, ts: string, i: nat)
    requires |lines| >= 1 && n >= 1 && i < ChunkCount(|lines|, n)
    ensures |LinesWrites(src, base, lines, n, prefix, ts)| == ChunkCount(|lines|, n)
    ensures ChunkStart(|lines|, n, i) < ChunkEnd(|lines|, n, i) <= |lines|
    ensures LinesWrites(src, base, lines, n, prefix, ts)[i] ==
      Write(Ref(src.bucket, ChunkKey(prefix, base, ts, i)),
            JoinLines(lines[ChunkStart(|lines|, n, i)..ChunkEnd(|lines|, n, i)]))
  {
    ChunkRange(|lines|, n, i);
    WritesUpToAt(src, base, lines, n, prefix, ts, ChunkCount(|lines|, n), i);
  }

  function Bodies(ws: seq<Write>): (r: seq<string>)
    ensures |r| == |ws| && forall i :: 0 <= i < |ws| ==> r[i] == ws[i].body
  {
    seq(|ws|, i requires 0 <= i < |ws| => ws[i].body)
  }

  /** The locators returned to the client for the writes `ws`, in order. */
  function Urls(ws: seq<Write>): (r: seq<string>)
    ensures |r| == |ws|
  {
    if ws == [] then [] else Urls(ws[..|ws| - 1]) + [Format(ws[|ws| - 1].target)]
  }

  /** Locator `i` names the address of write `i`. */
  lemma {:induction false} UrlsAt(ws: seq<Write>, i: nat)
    requires i < |ws|
    ensures Urls(ws)[i] == Format(ws[i].target)
  {
    if i < |ws| - 1 {
      UrlsAt(ws[..|ws| - 1], i);
    }
  }

  lemma UrlsSnoc(ws: seq<Write>, w: Write)
    ensures Urls(ws + [w]) == Urls(ws) + [Format(w.target)]
  {
    TakeSnoc(ws, w, |ws|);
  }

  /** The store contents after the puts `ws`, in order. */
  function ApplyWrites(objects: map<Ref, string>, ws: seq<Write>): map<Ref, string>
  {
    if ws == [] then objects
    else
      var last := ws[|ws| - 1];
      ApplyWrites(objects, ws[..|ws| - 1])[last.target := last.body]
  }

  lemma ApplyWritesSnoc(objects: map<Ref, string>, ws: seq<Write>, w: Write)
    ensures ApplyWrites(objects, ws + [w]) == ApplyWrites(objects, ws)[w.target := w.body]
  {
    TakeSnoc(ws, w, |ws|);
  }

  /** The index of the first write aimed at a failing address, or |ws| when none is. */
  function FirstFault(ws: seq<Write>, faulty: set<Ref>): (j: nat)
    ensures j <= |ws|
    ensures forall i :: 0 <= i < j ==> ws[i].target !in faulty
    ensures j < |ws| ==> ws[j].target in faulty
  {
    if ws == [] then 0
    else if ws[0].target in faulty then 0
    else 1 + FirstFault(ws[1..], faulty)
  }

  /** The characterisation in FirstFault's contract pins the index down. */
  lemma FirstFaultIs(ws: seq<Write>, faulty: set<Ref>, j: nat)
    requires j <= |ws|
    requires forall i :: 0 <= i < j ==> ws[i].target !in faulty
    requires j < |ws| ==> ws[j].target in faulty
    ensures FirstFault(ws, faulty) == j
  {
  }

  /** One more write after a run without faults either faults there or extends the run. */
  lemma FirstFaultSnoc(ws: seq<Write>, w: Write, faulty: set<Ref>)
    requires FirstFault(ws, faulty) == |ws|
    ensures FirstFault(ws + [w], faulty) == if w.target in faulty then |ws| else |ws| + 1
  {
    var s := ws + [w];
    assert forall i :: 0 <= i < |ws| ==> s[i] == ws[i];
    FirstFaultIs(s, faulty, if w.target in faulty then |ws| else |ws| + 1);
  }

  /** A fault inside a prefix is the first fault of the whole run. */
  lemma FirstFaultOfPrefix(ws: seq<Write>, faulty: set<Ref>, k: nat)
    requires k <= |ws| && FirstFault(ws[..k], faulty) < k
    ensures FirstFault(ws, faulty) == FirstFault(ws[..k], faulty)
  {
    var s := ws[..k];
    var j := FirstFault(s, faulty);
    assert forall i :: 0 <= i <= j ==> s[i] == ws[i];
    FirstFaultIs(ws, faulty, j);
  }

  /**
   * The chunk writes for given lines: between 1 and n of them, chunk `i` at
   * `prefix/base_ts_chunkNN.txt` in the source's bucket, and the chunk texts
   * joined in order with line feeds are the lines joined.
   */
  lemma LinesWritesSpec(src: Ref, base: string, lines: seq<string>, n: nat, prefix: string, ts: string)
    requires |lines| >= 1 && 1 <= n <= MaxChunks
    ensures var ws := LinesWrites(src, base, lines, n, prefix, ts);
      && 1 <= |ws| <= n
      && |ws| == ChunkCount(|lines|, n)
      && (forall i :: 0 <= i < |ws| ==> ws[i].target == Ref(src.bucket, ChunkKey(prefix, base, ts, i)))
      && JoinLines(Bodies(ws)) == JoinLines(lines)
  {
    var ws := LinesWrites(src, base, lines, n, prefix, ts);
    ChunkCountBounds(|lines|, n);
    forall i | 0 <= i < |ws|
      ensures ws[i] == ChunkWrite(src, base, lines, n, prefix, ts, i)
    {
      WritesUpToAt(src, base, lines, n, prefix, ts, |ws|, i);
    }
    ChunksReassemble(lines, n);
    assert Bodies(ws) == ChunkBodies(lines, n, |ws|);
  }

  /**
   * A request on a source holding `data` writes between 1 and n chunks,
   * chunk `i` at `prefix/base_ts_chunkNN.txt` in the source's bucket, and
   * joining the chunk texts in order with line feeds gives `data` back.
   */
  lemma ChunkWritesSpec(src: Ref, data: string, n: nat, prefix: string, ts: string)
    requires 1 <= n <= MaxChunks
    ensures var ws := ChunkWrites(src, data, n, prefix, ts);
      && 1 <= |ws| <= n
      && |ws| == ChunkCount(|SplitLines(data)|, n)
      && (forall i :: 0 <= i < |ws| ==>
            ws[i].target == Ref(src.bucket, ChunkKey(prefix, SanitizeBaseName(src.key), ts, i)))
      && JoinLines(Bodies(ws)) == data
  {
    LinesWritesSpec(src, SanitizeBaseName(src.key), SplitLines(data), n, prefix, ts);
    JoinSplitLines(data);
  }

  predicate DistinctTargets(ws: seq<Write>)
  {
    forall a, b :: 0 <= a < b < |ws| ==> ws[a].target != ws[b].target
  }

  /** The chunk writes of one request go to pairwise different addresses. */
  lemma ChunkTargetsDistinct(src: Ref, data: string, n: nat, prefix: string, ts: string)
    requires 1 <= n <= MaxChunks
    ensures DistinctTargets(ChunkWrites(src, data, n, prefix, ts))
  {
    var lines, base := SplitLines(data), SanitizeBaseName(src.key);
    var ws := ChunkWrites(src, data, n, prefix, ts);
    ChunkCountBounds(|lines|, n);
    forall a, b | 0 <= a < b < |ws| ensures ws[a].target != ws[b].target {
      LinesWriteAt(src, base, lines, n, prefix, ts, a);
      LinesWriteAt(src, base, lines, n, prefix, ts, b);
      if ws[a].target == ws[b].target {
        ChunkKeyInjective(prefix, base, ts, a, b);
      }
    }
  }

  /** After writes to pairwise different addresses, each address holds its own write. */
  lemma {:induction false} ApplyDistinctWrites(objects: map<Ref, string>, ws: seq<Write>, i: nat)
    requires DistinctTargets(ws)
    requires i < |ws|
    ensures ws[i].target in ApplyWrites(objects, ws)
    ensures ApplyWrites(objects, ws)[ws[i].target] == ws[i].body
  {
    if i < |ws| - 1 {
      ApplyDistinctWrites(objects, ws[..|ws| - 1], i);
    }
  }

  /** Addresses no write aims at keep their contents. */
  lemma {:induction false} ApplyWritesElsewhere(objects: map<Ref, string>, ws: seq<Write>, r: Ref)
    requires forall i :: 0 <= i < |ws| ==> ws[i].target != r
    ensures r in ApplyWrites(objects, ws) <==> r in objects
    ensures r in objects ==> ApplyWrites(objects, ws)[r] == objects[r]
  {
    if ws != [] {
      ApplyWritesElsewhere(objects, ws[..|ws| - 1], r);
    }
  }

  /** After a complete split every chunk object holds its own text. */
  lemma {:induction false} SplitStoresEveryChunk(objects: map<Ref, string>, src: Ref, data: string, n: nat, prefix: string, ts: string, i: nat)
    requires 1 <= n <= MaxChunks
    requires i < |ChunkWrites(src, data, n, prefix, ts)|
    ensures var ws := ChunkWrites(src, data, n, prefix, ts);
      ws[i].target in ApplyWrites(objects, ws) && ApplyWrites(objects, ws)[ws[i].target] == ws[i].body
  {
    ChunkTargetsDistinct(src, data, n, prefix, ts);
    ApplyDistinctWrites(objects, ChunkWrites(src, data, n, prefix, ts), i);
  }

  // ---------------------------------------------------------------------------
  // The handler
  // ---------------------------------------------------------------------------

  /** Chunk `i` spelled out the way the handler's loop computes it. */
  lemma ChunkWriteIs(src: Ref, base: string, lines: seq<string>, n: nat, prefix: string, ts: string, i: nat)
    requires |lines| >= 1 && n >= 1 && i < ChunkCount(|lines|, n)
    ensures i * ChunkSize(|lines|, n) < |lines|
    ensures var to := if (i + 1) * ChunkSize(|lines|, n) > |lines| then |lines| else (i + 1) * ChunkSize(|lines|, n);
      && i * ChunkSize(|lines|, n) <= to <= |lines|
      && ChunkWrite(src, base, lines, n, prefix, ts, i) ==
         Write(Ref(src.bucket, ChunkKey(prefix, base, ts, i)),
               JoinLines(lines[i * ChunkSize(|lines|, n)..to]))
  {
    ChunkRange(|lines|, n, i);
  }

  /** A put failing at write `i` after `i` clean writes makes `i` the request's first fault. */
  lemma FaultAt(src: Ref, base: string, lines: seq<string>, n: nat, prefix: string, ts: string, i: nat, faulty: set<Ref>)
    requires |lines| >= 1 && n >= 1 && i < ChunkCount(|lines|, n)
    requires FirstFault(WritesUpTo(src, base, lines, n, prefix, ts, i), faulty) == i
    requires ChunkWrite(src, base, lines, n, prefix, ts, i).target in faulty
    ensures var ws := LinesWrites(src, base, lines, n, prefix, ts);
      FirstFault(ws, faulty) == i && ws[..i] == WritesUpTo(src, base, lines, n, prefix, ts, i)
  {
    var ws := LinesWrites(src, base, lines, n, prefix, ts);
    var done := WritesUpTo(src, base, lines, n, prefix, ts, i);
    FirstFaultSnoc(done, ChunkWrite(src, base, lines, n, prefix, ts, i), faulty);
    WritesUpToPrefix(src, base, lines, n, prefix, ts, ChunkCount(|lines|, n), i + 1);
    FirstFaultOfPrefix(ws, faulty, i + 1);
    WritesUpToPrefix(src, base, lines, n, prefix, ts, ChunkCount(|lines|, n), i);
  }

  /** `count` clean writes are the whole request, with no fault in it. */
  lemma AllChunksWritten(src: Ref, base: string, lines: seq<string>, n: nat, prefix: string, ts: string, faulty: set<Ref>)
    requires |lines| >= 1 && n >= 1
    requires FirstFault(WritesUpTo(src, base, lines, n, prefix, ts, ChunkCount(|lines|, n)), faulty) == ChunkCount(|lines|, n)
    ensures var ws := LinesWrites(src, base, lines, n, prefix, ts);
      FirstFault(ws, faulty) == |ws| && ws[..|ws|] == ws
  {
  }

  /**
   * One pass of the chunking loop once chunk `i` is known to start inside the
   * text: cut the lines, name the object, put it, and give back its locator.
   */
  method PutChunk(store: ObjectStore, src: Ref, lines: seq<string>, n: nat, outPrefix: string, ts: string,
                  i: nat, chunkSize: nat, baseName: string)
    returns (put: Outcome<StoreError>, url: string)
    requires |lines| >= 1 && n >= 1 && i < ChunkCount(|lines|, n)
    requires chunkSize == ChunkSize(|lines|, n)
    modifies store
    ensures var w := ChunkWrite(src, baseName, lines, n, outPrefix, ts, i);
      && put == (if w.target in store.faulty then Fail(Unavailable) else Pass)
      && store.objects == (if w.target in store.faulty then old(store.objects) else old(store.objects)[w.target := w.body])
      && url == Format(w.target)
  {
    ChunkWriteIs(src, baseName, lines, n, outPrefix, ts, i);
    var from := i * chunkSize;
    var to := (i + 1) * chunkSize;
    if to > |lines| {
      to := |lines|;
    }
    var chunkText := JoinLines(lines[from..to]);
    var outKey := ChunkKey(outPrefix, baseName, ts, i);
    put := store.Put(Ref(src.bucket, outKey), chunkText);
    url := Format(Ref(src.bucket, outKey));
  }

  /**
   * The chunking loop of the `/split` handler (`for i := 0; i < n; i++`). On a
   * failed put the chunks written before it stay in the store.
   */
  method WriteChunks(store: ObjectStore, src: Ref, baseName: string, lines: seq<string>, n: nat, outPrefix: string, ts: string)
    returns (res: Result<seq<string>, HttpError>)
    requires |lines| >= 1 && 1 <= n <= MaxChunks
    modifies store
    ensures var ws := LinesWrites(src, baseName, lines, n, outPrefix, ts);
      var j := FirstFault(ws, store.faulty);
      && store.objects == ApplyWrites(old(store.objects), ws[..j])
      && res == (if j == |ws| then Ok(Urls(ws)) else Err(PutFailure(Unavailable)))
  {
    var chunkSize := ChunkSize(|lines|, n);
    ghost var count := ChunkCount(|lines|, n);
    ChunkCountBounds(|lines|, n);

    var outUrls: seq<string> := [];
    ghost var done: seq<Write> := [];
    var i := 0;
    while i < n
      invariant 0 <= i <= count
      invariant done == WritesUpTo(src, baseName, lines, n, outPrefix, ts, i)
      invariant store.objects == ApplyWrites(old(store.objects), done)
      invariant FirstFault(done, store.faulty) == i
      invariant outUrls == Urls(done)
    {
      var from := i * chunkSize;
      ChunkEmitted(|lines|, n, i);
      if from >= |lines| {
        break;
      }
      ghost var w := ChunkWrite(src, baseName, lines, n, outPrefix, ts, i);
      var put, url := PutChunk(store, src, lines, n, outPrefix, ts, i, chunkSize, baseName);
      if put.Fail? {
        FaultAt(src, baseName, lines, n, outPrefix, ts, i, store.faulty);
        return Err(PutFailure(put.error));
      }
      FirstFaultSnoc(done, w, store.faulty);
      ApplyWritesSnoc(old(store.objects), done, w);
      UrlsSnoc(done, w);
      outUrls := outUrls + [url];
      done := done + [w];
      i := i + 1;
    }
    ChunkEmitted(|lines|, n, i);
    assert i == count;
    AllChunksWritten(src, baseName, lines, n, outPrefix, ts, store.faulty);
    return Ok(outUrls);
  }

  /** The `/split` handler over the store. */
  method Split(store: ObjectStore, s3: string, chunks: string, outPrefix: string, ts: string)
    returns (res: Result<seq<string>, HttpError>)
    modifies store
    ensures match CheckRequest(s3, chunks)
      case Err(e) => res == Err(e) && store.objects == old(store.objects)
      case Ok((src, n)) =>
        match Fetch(old(store.objects), store.faulty, src)
        case Err(ge) => res == Err(GetFailure(ge)) && store.objects == old(store.objects)
        case Ok(data) =>
          if |data| == 0 then
            res == Err(HttpError(BadRequest, EmptyInput)) && store.objects == old(store.objects)
          else
            var ws := ChunkWrites(src, data, n, outPrefix, ts);
            var j := FirstFault(ws, store.faulty);
            && store.objects == ApplyWrites(old(store.objects), ws[..j])
            && res == (if j == |ws| then Ok(Urls(ws)) else Err(PutFailure(Unavailable)))
  {
    var checked := CheckRequest(s3, chunks);
    if checked.Err? {
      return Err(checked.error);
    }
    var src, n := checked.value.0, checked.value.1;
    var got := store.Get(src);
    if got.Err? {
      return Err(GetFailure(got.error));
    }
    var data := got.value;
    if |data| == 0 {
      return Err(HttpError(BadRequest, EmptyInput));
    }
    var lines := SplitLines(data);
    var baseName := SanitizeBaseName(src.key);
    res := WriteChunks(store, src, baseName, lines, n, outPrefix, ts);
  }
}
