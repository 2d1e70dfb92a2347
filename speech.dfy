/** tts.py: resolving every word of every part to its synthesized speech.
    Each word is stripped; a stripped word already resolved is skipped; one
    found in the on-disk cache is taken from there; any other is synthesized,
    with the rest of its part's words before and after it as context, and
    stored both in the result and in the cache. The speech service and the
    cache directory are an object whose answers are a fixed function of the
    request, and which keeps a ghost log of the requests it was sent. */
module Speech {
  import opened Util

  /** What the service returns for a word: the audio and the time each
      character starts and ends. */
  datatype WordInfo = WordInfo(startTimes: seq<real>, endTimes: seq<real>, characters: seq<string>, audio: seq<int>)

  /** A synthesis request: the word, and the text before and after it. */
  datatype Request = Request(text: string, previous: Option<string>, next: Option<string>)

  /** `" ".join(ws)`. */
  function JoinWords(ws: seq<string>): string {
    if |ws| == 0 then "" else if |ws| == 1 then ws[0] else JoinWords(ws[..|ws| - 1]) + " " + ws[|ws| - 1]
  }

  /** The context of word `i`: all the words before it, and all the words
      after it, each joined with spaces, or nothing when there are none. */
  function Context(words: seq<string>, i: nat): (c: (Option<string>, Option<string>))
    requires i < |words|
    ensures c.0.None? <==> i == 0
    ensures c.1.None? <==> i + 1 == |words|
  {
    (if i == 0 then None else Some(JoinWords(words[..i])),
     if i + 1 < |words| then Some(JoinWords(words[i + 1..])) else None)
  }

  /** The request for word `i` of a part. */
  function RequestFor(words: seq<string>, i: nat): Request
    requires i < |words|
  {
    Request(StripWord(words[i]), Context(words, i).0, Context(words, i).1)
  }

  // ---------------------------------------------------------------------
  // tts as a function of the service's answers
  // ---------------------------------------------------------------------

  /** The resolved words, the cache, and the requests sent. */
  datatype TtsState = TtsState(found: map<string, WordInfo>, disk: map<string, WordInfo>, log: seq<Request>)

  /** Word `i` of a part. */
  function WordStep(respond: Request -> Result<WordInfo>, st: TtsState, words: seq<string>, i: nat): Result<TtsState>
    requires i < |words|
  {
    var w := StripWord(words[i]);
    if w in st.found then Success(st)
    else if w in st.disk then Success(st.(found := st.found[w := st.disk[w]]))
    else
      var req := RequestFor(words, i);
      var info :- respond(req);
      Success(TtsState(st.found[w := info], st.disk[w := info], st.log + [req]))
  }

  /** Whether `(p, i)` is a word of `texts`. */
  predicate At(texts: seq<seq<string>>, p: int, i: int) {
    0 <= p < |texts| && 0 <= i < |texts[p]|
  }

  /** `(p, i)` is a position from which the loops go on. */
  predicate Resumable(texts: seq<seq<string>>, p: nat, i: nat) {
    p <= |texts| && (p < |texts| ==> i <= |texts[p]|) && (p == |texts| ==> i == 0)
  }

  /** The two loops, from word `i` of part `p` on. */
  function From(respond: Request -> Result<WordInfo>, st: TtsState, texts: seq<seq<string>>, p: nat, i: nat): Result<TtsState>
    requires Resumable(texts, p, i)
    decreases |texts| - p, if p < |texts| then |texts[p]| - i else 0
  {
    if p == |texts| then Success(st)
    else if i == |texts[p]| then From(respond, st, texts, p + 1, 0)
    else
      var st' :- WordStep(respond, st, texts[p], i);
      From(respond, st', texts, p, i + 1)
  }

  /** `tts` over the parts' word lists, in the parts' order. */
  function TtsSpec(respond: Request -> Result<WordInfo>, disk: map<string, WordInfo>, texts: seq<seq<string>>): Result<TtsState> {
    From(respond, TtsState(map[], disk, []), texts, 0, 0)
  }

  // ---------------------------------------------------------------------
  // The service
  // ---------------------------------------------------------------------

  /** The speech service together with its cache directory. */
  class SpeechService {
    /** The cache: what has been written for each stripped word. */
    var disk: map<string, WordInfo>
    /** Every request sent, in order. */
    ghost var log: seq<Request>
    /** The service's answer to a request (a failure for a status other
        than 200). */
    const respond: Request -> Result<WordInfo>

    constructor (disk0: map<string, WordInfo>, respond0: Request -> Result<WordInfo>)
      ensures disk == disk0 && log == [] && respond == respond0
    {
      disk := disk0;
      log := [];
      respond := respond0;
    }

    /** `get_cache`. */
    method GetCache(word: string) returns (r: Option<WordInfo>)
      ensures r == if word in disk then Some(disk[word]) else None
    {
      if word in disk {
        return Some(disk[word]);
      }
      return None;
    }

    /** `streaming_tts`. */
    method StreamingTts(req: Request) returns (r: Result<WordInfo>)
      modifies this
      ensures r == respond(req) && disk == old(disk) && log == old(log) + [req]
    {
      log := log + [req];
      r := respond(req);
    }

    /** The writes of the `.mp3` and `.csv` files for a word. */
    method SaveCache(word: string, info: WordInfo)
      modifies this
      ensures disk == old(disk)[word := info] && log == old(log)
    {
      disk := disk[word := info];
    }
  }

  /** `tts`: the words map; the service's cache and log change as the
      function says. */
  method Tts(svc: SpeechService, texts: seq<seq<string>>) returns (r: Result<map<string, WordInfo>>)
    modifies svc
    ensures var s := TtsSpec(svc.respond, old(svc.disk), texts);
      (r.Success? <==> s.Success?) &&
      (r.Success? ==> r.value == s.value.found && svc.disk == s.value.disk && svc.log == old(svc.log) + s.value.log) &&
      (r.Failure? ==> r.error == s.error)
  {
    var found: map<string, WordInfo> := map[];
    ghost var sent: seq<Request> := [];
    var p := 0;
    while p < |texts|
      invariant p <= |texts|
      invariant svc.log == old(svc.log) + sent
      invariant From(svc.respond, TtsState(found, svc.disk, sent), texts, p, 0) == TtsSpec(svc.respond, old(svc.disk), texts)
    {
      var words := texts[p];
      var i := 0;
      while i < |words|
        invariant i <= |words|
        invariant svc.log == old(svc.log) + sent
        invariant From(svc.respond, TtsState(found, svc.disk, sent), texts, p, i) == TtsSpec(svc.respond, old(svc.disk), texts)
      {
        ghost var st := TtsState(found, svc.disk, sent);
        var word := words[i];
        var stripped := StripWord(word);
        if stripped in found {
          assert WordStep(svc.respond, st, words, i) == Success(st);
          i := i + 1;
          continue;
        }
        var cache := svc.GetCache(stripped);
        if cache.Some? {
          found := found[stripped := cache.value];
          assert WordStep(svc.respond, st, words, i) == Success(TtsState(found, svc.disk, sent));
          i := i + 1;
          continue;
        }
        var info := svc.StreamingTts(Request(stripped, if i == 0 then None else Some(JoinWords(words[..i])),
                                             if i + 1 < |words| then Some(JoinWords(words[i + 1..])) else None));
        sent := sent + [RequestFor(words, i)];
        if info.Failure? {
          return Failure(info.error);
        }
        found := found[stripped := info.value];
        svc.SaveCache(stripped, info.value);
        assert WordStep(svc.respond, st, words, i) == Success(TtsState(found, svc.disk, sent));
        i := i + 1;
      }
      p := p + 1;
    }
    return Success(found);
  }
}
