/** The whitespace collapse, said once more: the words of the text, joined by single spaces. */
module RedactionWords {
  import opened Redaction
  import opened RedactionTwice

  /** Length of the longest prefix without whitespace. */
  function WordLen(s: string): (n: nat)
    ensures n <= |s| && (forall k :: 0 <= k < n ==> !IsWhite(s[k])) && (n < |s| ==> IsWhite(s[n]))
  {
    if s == "" || IsWhite(s[0]) then 0 else 1 + WordLen(s[1..])
  }

  predicate Word(w: string) { w != "" && forall k :: 0 <= k < |w| ==> !IsWhite(w[k]) }

  /** The maximal stretches without whitespace, in order. */
  function Words(s: string): (ws: seq<string>)
    ensures forall w :: w in ws ==> Word(w)
    decreases |s|
  {
    hide *;
    var rest := s[RunLen(White, s)..];
    if rest == "" then []
    else
      var n := WordLen(rest);
      WordThere(s);
      var first, more := rest[..n], Words(rest[n..]);
      MoreWords(first, more);
      [first] + more
  }

  lemma MoreWords(first: string, more: seq<string>)
    requires Word(first) && forall w :: w in more ==> Word(w)
    ensures forall w :: w in [first] + more ==> Word(w)
  {
    hide Word;
  }

  lemma WordThere(s: string)
    requires RunLen(White, s) < |s|
    ensures var rest := s[RunLen(White, s)..]; WordLen(rest) > 0 && Word(rest[..WordLen(rest)])
  {
    hide RunLen;
    var rest := s[RunLen(White, s)..];
    assert rest[0] == s[RunLen(White, s)] && In(White, rest[0]) == IsWhite(rest[0]);
  }

  function Joined(ws: seq<string>): string {
    if ws == [] then "" else if |ws| == 1 then ws[0] else ws[0] + (" " + Joined(ws[1..]))
  }

  lemma JoinStep(w: string, ws: seq<string>)
    ensures Joined([w] + ws) == w + (if ws == [] then "" else " " + Joined(ws))
  {
    assert ([w] + ws)[1..] == ws;
  }

  /** Behind leading whitespace the collapse goes on as behind none. */
  lemma SqueezeRest(t: string)
    requires t == "" || IsWhite(t[0])
    ensures Squeeze(t) == if t[RunLen(White, t)..] == "" then "" else " " + Collapse(t)
  {
    hide RunLen, IsWhite;
    SqueezeStep(t);
    if t == "" { RunLenIs(White, t, 0); }
  }

  lemma WordsStep(s: string)
    ensures var rest := s[RunLen(White, s)..];
            if rest == "" then Words(s) == []
            else WordLen(rest) > 0 && Words(s) == [rest[..WordLen(rest)]] + Words(rest[WordLen(rest)..])
  {
    hide RunLen, WordLen;
    if s[RunLen(White, s)..] != "" { WordThere(s); }
  }

  /** For every text, collapsing keeps exactly its words, with one space between two of them. */
  lemma {:induction false} CollapseJoinsWords(s: string)
    ensures Collapse(s) == Joined(Words(s))
    decreases |s|
  {
    hide Squeeze, RunLen, IsWhite, Words, Joined, WordLen;
    WordsStep(s);
    var rest := s[RunLen(White, s)..];
    if rest == "" {
      SqueezeStep(rest);
      NoWords();
    } else {
      var n := WordLen(rest);
      var w, t := rest[..n], rest[n..];
      assert rest == w + t;
      SqueezeSolid(w, t);
      SqueezeRest(t);
      CollapseJoinsWords(t);
      WordsStep(t);
      JoinStep(w, Words(t));
    }
  }

  lemma NoWords()
    ensures Joined([]) == ""
  {
  }
}
