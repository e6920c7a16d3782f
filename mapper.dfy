/**
 * The mapper's `/map` handler: read one text object, lowercase it, count the
 * maximal runs of `[A-Za-z0-9']` in it and write the count map as a new object
 * next to the input, named after the input key.
 */
module Mapper {
  import opened Wrappers
  import opened Strings
  import opened Locator
  import opened Store
  import opened Http
  import opened Tally

  // ---------------------------------------------------------------------------
  // strings.ToLower, restricted to ASCII
  // ---------------------------------------------------------------------------

  predicate IsUpper(c: char) { 'A' <= c <= 'Z' }

  function LowerChar(c: char): char
  {
    if IsUpper(c) then (c as int - 'A' as int + 'a' as int) as char else c
  }

  /** `strings.ToLower` on ASCII letters; every other character is kept. */
  function Lower(s: string): (r: string)
    ensures |r| == |s| && forall i :: 0 <= i < |s| ==> r[i] == LowerChar(s[i])
  {
    seq(|s|, i requires 0 <= i < |s| => LowerChar(s[i]))
  }

  predicate NoUpper(s: string)
  {
    forall i :: 0 <= i < |s| ==> !IsUpper(s[i])
  }

  /** Lowercased text holds no upper-case letter, and lowercasing it again changes nothing. */
  lemma LowerIdempotent(s: string)
    ensures NoUpper(Lower(s))
    ensures Lower(Lower(s)) == Lower(s)
  {
  }

  /** Lowercasing only touches upper-case letters, each into its lower-case partner. */
  lemma LowerChanges(s: string, i: nat)
    requires i < |s|
    ensures Lower(s)[i] != s[i] <==> IsUpper(s[i])
    ensures IsUpper(s[i]) ==> Lower(s)[i] as int == s[i] as int + 32
  {
  }

  // ---------------------------------------------------------------------------
  // wordRe.FindAllString(text, -1) with wordRe = [A-Za-z0-9']+
  // ---------------------------------------------------------------------------

  predicate IsWordChar(c: char)
  {
    ('a' <= c <= 'z') || ('A' <= c <= 'Z') || ('0' <= c <= '9') || c == '\''
  }

  /** What the pattern matches as a whole: one or more word characters. */
  predicate IsToken(t: string)
  {
    |t| >= 1 && forall i :: 0 <= i < |t| ==> IsWordChar(t[i])
  }

  /** The length of the run of word characters at the start of `s`. */
  function RunLength(s: string): (k: nat)
    ensures k <= |s|
    ensures forall i :: 0 <= i < k ==> IsWordChar(s[i])
    ensures k < |s| ==> !IsWordChar(s[k])
  {
    if |s| == 0 || !IsWordChar(s[0]) then 0 else 1 + RunLength(s[1..])
  }

  /** A run that stops at a non-word character or at the end is the leading run. */
  lemma {:induction false} RunLengthIs(s: string, k: nat)
    requires k <= |s|
    requires forall i :: 0 <= i < k ==> IsWordChar(s[i])
    requires k < |s| ==> !IsWordChar(s[k])
    ensures RunLength(s) == k
  {
    if k > 0 {
      RunLengthIs(s[1..], k - 1);
    }
  }

  /**
   * The successive leftmost-longest matches of the pattern: each maximal run
   * of word characters, in order; everything else separates them.
   */
  function Tokens(s: string): (r: seq<string>)
    ensures forall i :: 0 <= i < |r| ==> IsToken(r[i])
    decreases |s|
  {
    if |s| == 0 then []
    else if !IsWordChar(s[0]) then Tokens(s[1..])
    else
      var k := RunLength(s);
      [s[..k]] + Tokens(s[k..])
  }

  /** Text without word characters (the empty text included) has no tokens. */
  lemma {:induction false} TokensNone(s: string)
    requires forall i :: 0 <= i < |s| ==> !IsWordChar(s[i])
    ensures Tokens(s) == []
    decreases |s|
  {
    if |s| > 0 {
      TokensNone(s[1..]);
    }
  }

  /** A whole word is a single token: runs are never cut short. */
  lemma TokensWord(w: string)
    requires IsToken(w)
    ensures Tokens(w) == [w]
  {
    RunLengthIs(w, |w|);
    assert w[..|w|] == w;
    TokensNone(w[|w|..]);
  }

  lemma SeparatorStep(a: string, c: char, b: string)
    requires |a| >= 1
    ensures (a + [c] + b)[1..] == a[1..] + [c] + b
  {
  }

  lemma RunStep(a: string, c: char, b: string, k: nat)
    requires 1 <= k <= |a|
    ensures (a + [c] + b)[..k] == a[..k]
    ensures (a + [c] + b)[k..] == a[k..] + [c] + b
  {
  }

  /** A run of word characters inside `a` ends at the latest at a separator after it. */
  lemma RunBeforeSeparator(a: string, c: char, b: string)
    requires !IsWordChar(c)
    ensures RunLength(a + [c] + b) == RunLength(a)
  {
    var s := a + [c] + b;
    var k := RunLength(a);
    assert forall i :: 0 <= i < k ==> s[i] == a[i];
    assert s[k] == if k < |a| then a[k] else c;
    RunLengthIs(s, k);
  }

  /** A separator splits the token list: no token spans it. */
  lemma {:induction false} TokensSeparator(a: string, c: char, b: string)
    requires !IsWordChar(c)
    ensures Tokens(a + [c] + b) == Tokens(a) + Tokens(b)
    decreases |a|
  {
    var s := a + [c] + b;
    if |a| == 0 {
      assert s[1..] == b;
    } else if !IsWordChar(a[0]) {
      SeparatorStep(a, c, b);
      TokensSeparator(a[1..], c, b);
    } else {
      var k := RunLength(a);
      RunBeforeSeparator(a, c, b);
      RunStep(a, c, b, k);
      TokensSeparator(a[k..], c, b);
    }
  }

  /** All of a text's word characters, in order. */
  function WordChars(s: string): (r: string)
    ensures forall i :: 0 <= i < |r| ==> IsWordChar(r[i])
  {
    if |s| == 0 then [] else (if IsWordChar(s[0]) then [s[0]] else []) + WordChars(s[1..])
  }

  function Concat(ts: seq<string>): string
  {
    if |ts| == 0 then "" else ts[0] + Concat(ts[1..])
  }

  lemma {:induction false} WordCharsOfRun(s: string, k: nat)
    requires k <= |s| && forall i :: 0 <= i < k ==> IsWordChar(s[i])
    ensures WordChars(s) == s[..k] + WordChars(s[k..])
  {
    if k > 0 {
      WordCharsOfRun(s[1..], k - 1);
      ConsTake(s, k);
      Assoc(s[..1], s[1..][..k - 1], WordChars(s[k..]));
      assert WordChars(s) == [s[0]] + WordChars(s[1..]);
    }
  }

  /** No word character is lost or added: the tokens spell out the text's word characters. */
  lemma {:induction false} TokensCoverWordChars(s: string)
    ensures Concat(Tokens(s)) == WordChars(s)
    decreases |s|
  {
    if |s| > 0 {
      if !IsWordChar(s[0]) {
        TokensCoverWordChars(s[1..]);
      } else {
        var k := RunLength(s);
        TokensCoverWordChars(s[k..]);
        WordCharsOfRun(s, k);
        assert ([s[..k]] + Tokens(s[k..]))[1..] == Tokens(s[k..]);
      }
    }
  }

  /** Words separated by one non-word character each. */
  function JoinWith(ws: seq<string>, c: char): string
  {
    if |ws| == 0 then "" else if |ws| == 1 then ws[0] else ws[0] + [c] + JoinWith(ws[1..], c)
  }

  /**
   * The runs are maximal: words separated by non-word characters come back as
   * exactly those words, none split and none merged with its neighbour.
   */
  lemma {:induction false} TokensOfSeparatedWords(ws: seq<string>, c: char)
    requires !IsWordChar(c)
    requires forall i :: 0 <= i < |ws| ==> IsToken(ws[i])
    ensures Tokens(JoinWith(ws, c)) == ws
  {
    if |ws| == 1 {
      TokensWord(ws[0]);
    } else if |ws| > 1 {
      TokensSeparator(ws[0], c, JoinWith(ws[1..], c));
      TokensWord(ws[0]);
      TokensOfSeparatedWords(ws[1..], c);
      assert ws == [ws[0]] + ws[1..];
    }
  }

  /** Tokens of text without upper-case letters have none either. */
  lemma {:induction false} TokensNoUpper(s: string)
    requires NoUpper(s)
    ensures forall i :: 0 <= i < |Tokens(s)| ==> NoUpper(Tokens(s)[i])
    decreases |s|
  {
    if |s| > 0 {
      if !IsWordChar(s[0]) {
        TokensNoUpper(s[1..]);
      } else {
        var k := RunLength(s);
        TokensNoUpper(s[k..]);
      }
    }
  }

  // ---------------------------------------------------------------------------
  // counts[tok]++
  // ---------------------------------------------------------------------------

  /** The count map of a token list: every token seen, with its number of occurrences. */
  function CountMap(toks: seq<string>): Counts
  {
    map t | t in toks :: multiset(toks)[t]
  }

  /** Counting one more token adds one to its entry and leaves the others alone. */
  lemma CountMapSnoc(toks: seq<string>, t: string)
    ensures CountMap(toks + [t]) == CountMap(toks)[t := Get(CountMap(toks), t) + 1]
  {
    var s := toks + [t];
    assert multiset(s) == multiset(toks) + multiset{t};
    forall u | u in s
      ensures u in toks || u == t
    {
    }
    assert forall u :: u in toks ==> u in s;
  }

  /** The `for _, tok := range tokens { counts[tok]++ }` loop. */
  method CountTokens(toks: seq<string>) returns (counts: Counts)
    ensures counts == CountMap(toks)
  {
    counts := map[];
    for i := 0 to |toks|
      invariant counts == CountMap(toks[..i])
    {
      var tok := toks[i];
      CountMapSnoc(toks[..i], tok);
      assert toks[..i + 1] == toks[..i] + [tok];
      counts := counts[tok := Get(counts, tok) + 1];
    }
    assert toks[..|toks|] == toks;
  }

  /** The keys are exactly the tokens seen, and each value counts that token's occurrences. */
  lemma CountMapMeaning(toks: seq<string>, t: string)
    ensures t in CountMap(toks) <==> t in toks
    ensures t in CountMap(toks) ==> CountMap(toks)[t] == multiset(toks)[t] >= 1
  {
  }

  /** The sum of the values of `m` at `keys`. */
  ghost function SumAt(m: Counts, keys: set<string>): int
    requires keys <= m.Keys
    decreases keys
  {
    if keys == {} then 0
    else
      var k :| k in keys;
      m[k] + SumAt(m, keys - {k})
  }

  /** The sum of the values of a count map. */
  ghost function Total(m: Counts): int
  {
    SumAt(m, m.Keys)
  }

  /** The sum can be taken apart at any key. */
  lemma {:induction false} SumAtRemove(m: Counts, keys: set<string>, k: string)
    requires keys <= m.Keys && k in keys
    ensures SumAt(m, keys) == m[k] + SumAt(m, keys - {k})
    decreases keys
  {
    var j :| j in keys && SumAt(m, keys) == m[j] + SumAt(m, keys - {j});
    if j != k {
      SumAtRemove(m, keys - {j}, k);
      SumAtRemove(m, keys - {k}, j);
      assert keys - {j} - {k} == keys - {k} - {j};
    }
  }

  /** The sum only looks at the values at `keys`. */
  lemma {:induction false} SumAtSame(m1: Counts, m2: Counts, keys: set<string>)
    requires keys <= m1.Keys && keys <= m2.Keys
    requires forall k :: k in keys ==> m1[k] == m2[k]
    ensures SumAt(m1, keys) == SumAt(m2, keys)
    decreases keys
  {
    if keys != {} {
      var k :| k in keys;
      SumAtRemove(m1, keys, k);
      SumAtRemove(m2, keys, k);
      SumAtSame(m1, m2, keys - {k});
    }
  }

  /** Adding one to an entry (or adding an entry 1) adds one to the total. */
  lemma TotalIncrement(m: Counts, t: string)
    ensures Total(m[t := Get(m, t) + 1]) == Total(m) + 1
  {
    var m' := m[t := Get(m, t) + 1];
    var rest := m.Keys - {t};
    SumAtRemove(m', m'.Keys, t);
    assert m'.Keys - {t} == rest;
    SumAtSame(m', m, rest);
    if t in m {
      SumAtRemove(m, m.Keys, t);
    } else {
      assert rest == m.Keys;
    }
  }

  /** The counts add up to the number of tokens. */
  lemma {:induction false} TotalCounts(toks: seq<string>)
    ensures Total(CountMap(toks)) == |toks|
    decreases |toks|
  {
    if |toks| == 0 {
      assert CountMap(toks) == map[];
    } else {
      var init, last := toks[..|toks| - 1], toks[|toks| - 1];
      FrontLast(toks);
      CountMapSnoc(init, last);
      var before := CountMap(init);
      assert CountMap(toks) == before[last := Get(before, last) + 1];
      TotalCounts(init);
      TotalIncrement(before, last);
    }
  }

  /**
   * The count map the handler builds from a text. Every key is a non-empty
   * run of lower-case letters, digits and apostrophes, and every value is at
   * least 1.
   */
  function WordCounts(text: string): (r: Counts)
    ensures forall t :: t in r ==> IsToken(t) && NoUpper(t) && r[t] >= 1
  {
    var toks := Tokens(Lower(text));
    LowerIdempotent(text);
    TokensNoUpper(Lower(text));
    assert forall t :: t in toks ==> exists i :: 0 <= i < |toks| && toks[i] == t;
    CountMap(toks)
  }

  /** Counting ignores case: a text and its lowercased form give the same map. */
  lemma WordCountsIgnoreCase(text: string)
    ensures WordCounts(Lower(text)) == WordCounts(text)
  {
    LowerIdempotent(text);
  }

  /** Text without word characters, the empty text included, gives the empty map. */
  lemma WordCountsOfNoWords(text: string)
    requires forall i :: 0 <= i < |text| ==> !IsWordChar(text[i])
    ensures WordCounts(text) == map[]
  {
    assert forall i :: 0 <= i < |text| ==> !IsWordChar(Lower(text)[i]);
    TokensNone(Lower(text));
  }

  // ---------------------------------------------------------------------------
  // Output naming
  // ---------------------------------------------------------------------------

  const MaxKeyLength: nat := 60

  /** `strings.ReplaceAll(s, from, to)` for one-character `from` and `to`. */
  function ReplaceAll(s: string, from: char, to: char): (r: string)
    ensures |r| == |s| && forall i :: 0 <= i < |s| ==> r[i] == if s[i] == from then to else s[i]
  {
    seq(|s|, i requires 0 <= i < |s| => if s[i] == from then to else s[i])
  }

  /** The two replacements `sanitizeKey` makes: `/` and `.` become `_`. */
  function Flatten(key: string): (r: string)
    ensures |r| == |key| && '/' !in r && '.' !in r
  {
    ReplaceAll(ReplaceAll(key, '/', '_'), '.', '_')
  }

  /** `sanitizeKey`: flatten the key, then keep at most its last 60 characters. */
  function SanitizeKey(key: string): (r: string)
    ensures '/' !in r && '.' !in r
    ensures |r| <= MaxKeyLength
    ensures |key| <= MaxKeyLength ==> r == Flatten(key)
    ensures |key| > MaxKeyLength ==> |r| == MaxKeyLength && r == Flatten(key)[|key| - MaxKeyLength..]
  {
    var k := Flatten(key);
    if |k| > MaxKeyLength then k[|k| - MaxKeyLength..] else k
  }

  /** Characters other than `/` and `.` keep their place, counted from the end. */
  lemma SanitizeKeyChars(key: string, i: nat)
    requires i < |SanitizeKey(key)|
    ensures var r := SanitizeKey(key);
      var c := key[|key| - |r| + i];
      r[i] == if c == '/' || c == '.' then '_' else c
  {
  }

  /** Sanitizing twice is sanitizing once. */
  lemma SanitizeKeyIdempotent(key: string)
    ensures SanitizeKey(SanitizeKey(key)) == SanitizeKey(key)
  {
    var r := SanitizeKey(key);
    assert Flatten(r) == r;
  }

  /** `fmt.Sprintf("%s/%s_%s.json", outPrefix, sanitizeKey(key), ts)`. */
  function OutputKey(prefix: string, key: string, ts: string): string
  {
    prefix + "/" + SanitizeKey(key) + "_" + ts + ".json"
  }

  /**
   * An output key lies under the output prefix, carries the sanitized input
   * key after it, and ends in `.json`.
   */
  lemma OutputKeyShape(prefix: string, key: string, ts: string)
    ensures var k := OutputKey(prefix, key, ts);
      var s := SanitizeKey(key);
      |k| == |prefix| + |s| + |ts| + 7
      && k[..|prefix|] == prefix && k[|prefix|] == '/'
      && k[|prefix| + 1..|prefix| + 1 + |s|] == s
      && k[|k| - 5..] == ".json"
  {
    var s := SanitizeKey(key);
    var x := prefix + "/" + s + "_" + ts;
    var k := OutputKey(prefix, key, ts);
    assert k == x + ".json";
    assert k[..|prefix|] == prefix;
    assert k[|prefix| + 1..|prefix| + 1 + |s|] == s;
    assert k[|k| - 5..] == ".json";
  }

  /** The object the handler writes for input `src`: same bucket, derived key. */
  function OutputRef(src: Ref, prefix: string, ts: string): (r: Ref)
    ensures r.bucket == src.bucket
    ensures WellFormed(src) ==> WellFormed(r)
  {
    Ref(src.bucket, OutputKey(prefix, src.key, ts))
  }

  // ---------------------------------------------------------------------------
  // The handler
  // ---------------------------------------------------------------------------

  /** The checks made before the store is touched: `s3` is present and parses. */
  function CheckRequest(s3: string): (r: Result<Ref, HttpError>)
    ensures r.Ok? <==> s3 != "" && Parse(s3).Ok?
    ensures r.Ok? ==> r.value == Parse(s3).value
    ensures r.Err? ==> r.error.status == BadRequest
    ensures s3 == "" ==> r == Err(HttpError(BadRequest, MissingLocator))
  {
    if s3 == "" then Err(HttpError(BadRequest, MissingLocator))
    else
      match Parse(s3)
      case Err(e) => Err(HttpError(BadRequest, e.Message()))
      case Ok(src) => Ok(src)
  }

  /**
   * The `/map` handler over the store. `encode` stands for `json.Marshal` of
   * the count map; the answer is the locator of the object written.
   */
  method Map(store: ObjectStore, s3: string, outPrefix: string, ts: string, encode: Counts -> string)
    returns (res: Result<string, HttpError>)
    modifies store
    ensures match CheckRequest(s3)
      case Err(e) => res == Err(e) && store.objects == old(store.objects)
      case Ok(src) =>
        match Fetch(old(store.objects), store.faulty, src)
        case Err(ge) => res == Err(GetFailure(ge)) && store.objects == old(store.objects)
        case Ok(text) =>
          var out := OutputRef(src, outPrefix, ts);
          if out in store.faulty then
            res == Err(PutFailure(Unavailable)) && store.objects == old(store.objects)
          else
            res == Ok(Format(out)) && store.objects == old(store.objects)[out := encode(WordCounts(text))]
  {
    var checked := CheckRequest(s3);
    if checked.Err? {
      return Err(checked.error);
    }
    var src := checked.value;
    var got := store.Get(src);
    if got.Err? {
      return Err(GetFailure(got.error));
    }
    var text := Lower(got.value);
    var counts := CountTokens(Tokens(text));
    var outKey := OutputKey(outPrefix, src.key, ts);
    var body := encode(counts);
    var put := store.Put(Ref(src.bucket, outKey), body);
    if put.Fail? {
      return Err(PutFailure(put.error));
    }
    res := Ok(Format(Ref(src.bucket, outKey)));
  }
}
