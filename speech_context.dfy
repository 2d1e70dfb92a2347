/** The context sent with a synthesis request: the words of the same part
    before the word and after it, which together with the word make up the
    part's whole line. */
module SpeechContext {
  import opened Util
  import opened Speech

  /** The line a context and a word make, with the spaces between them. */
  function Around(c: (Option<string>, Option<string>), w: string): string {
    var line := if c.1.Some? then w + " " + c.1.value else w;
    if c.0.Some? then c.0.value + " " + line else line
  }

  lemma {:induction false} JoinAppend(a: seq<string>, b: seq<string>)
    requires |a| > 0 && |b| > 0
    ensures JoinWords(a + b) == JoinWords(a) + " " + JoinWords(b)
    decreases |b|
  {
    if |b| == 1 {
      assert (a + b)[..|a + b| - 1] == a;
    } else {
      var b' := b[..|b| - 1];
      assert (a + b)[..|a + b| - 1] == a + b';
      JoinAppend(a, b');
    }
  }

  /** The words from `i` on: word `i`, then the rest. */
  lemma JoinTail(words: seq<string>, i: nat)
    requires i < |words|
    ensures JoinWords(words[i..]) == if i + 1 < |words| then words[i] + " " + JoinWords(words[i + 1..]) else words[i]
  {
    if i + 1 < |words| {
      JoinAppend([words[i]], words[i + 1..]);
      assert [words[i]] + words[i + 1..] == words[i..];
    } else {
      assert words[i..] == [words[i]];
    }
  }

  /** The words before `i`, then the words from `i` on. */
  lemma JoinSplit(words: seq<string>, i: nat)
    requires 0 < i < |words|
    ensures JoinWords(words) == JoinWords(words[..i]) + " " + JoinWords(words[i..])
  {
    JoinAppend(words[..i], words[i..]);
    assert words[..i] + words[i..] == words;
  }

  /** The words before a word, the word, and the words after it, spaced,
      are the whole line of its part. */
  lemma ContextRebuildsLine(words: seq<string>, i: nat)
    requires i < |words|
    ensures Around(Context(words, i), words[i]) == JoinWords(words)
  {
    if i > 0 {
      LaterWordLine(words, i);
    } else {
      FirstWordLine(words);
    }
  }

  lemma FirstWordLine(words: seq<string>)
    requires 0 < |words|
    ensures Around(Context(words, 0), words[0]) == JoinWords(words)
  {
    JoinTail(words, 0);
    assert words[0..] == words;
  }

  lemma LaterWordLine(words: seq<string>, i: nat)
    requires 0 < i < |words|
    ensures Around(Context(words, i), words[i]) == JoinWords(words)
  {
    var c := Context(words, i);
    var line := if c.1.Some? then words[i] + " " + c.1.value else words[i];
    assert JoinWords(words[i..]) == line by {
      JoinTail(words, i);
    }
    JoinSplit(words, i);
  }
}
