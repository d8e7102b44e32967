/**
 * The conversation-naming policy of `generate_conversation_name`
 * (langgraph_database_backend.py): collapse whitespace, keep the text up to
 * the first sentence terminator, cap the length at 40 characters and fall
 * back to a fixed label when nothing is left.
 */
module Naming {
  import opened Text

  const MaxLength: nat := 40
  const KeptLength: nat := 37
  const Ellipsis: string := "..."
  const Fallback: string := "New Conversation"

  /**
   * The code points Python's `str.split()` and `str.strip()` treat as
   * whitespace (those `str.isspace()` accepts).
   */
  predicate IsSpace(c: char) {
    ('\t' <= c <= '\r') || ('\U{1C}' <= c <= ' ') || c == '\U{85}' || c == '\U{A0}' || c == '\U{1680}'
    || ('\U{2000}' <= c <= '\U{200A}') || c == '\U{2028}' || c == '\U{2029}' || c == '\U{202F}'
    || c == '\U{205F}' || c == '\U{3000}'
  }

  /** The character class `[.!?]` of the sentence split. */
  predicate IsTerminator(c: char) {
    c == '.' || c == '!' || c == '?'
  }

  predicate IsWord(w: string) {
    w != [] && forall i :: 0 <= i < |w| ==> !IsSpace(w[i])
  }

  predicate NoTerminator(s: string) {
    forall i :: 0 <= i < |s| ==> !IsTerminator(s[i])
  }

  /**
   * The shape of `' '.join(s.split())`: the only whitespace is a single
   * ' ' between two non-space characters, so there is no leading, trailing
   * or doubled space.
   */
  predicate IsCollapsed(c: string) {
    forall i :: 0 <= i < |c| && IsSpace(c[i]) ==>
      c[i] == ' ' && 0 < i < |c| - 1 && !IsSpace(c[i - 1]) && !IsSpace(c[i + 1])
  }

  /** The characters of `s` that are not whitespace, in order. */
  function NonSpace(s: string): string {
    if s == [] then [] else KeepChar(s[0]) + NonSpace(s[1..])
  }

  function KeepChar(c: char): string {
    if IsSpace(c) then [] else [c]
  }

  /** Length of the longest whitespace-free prefix of `s`. */
  function WordLength(s: string): (n: nat)
    ensures n <= |s|
    ensures forall i :: 0 <= i < n ==> !IsSpace(s[i])
    ensures n == |s| || IsSpace(s[n])
  {
    if s == [] || IsSpace(s[0]) then 0 else 1 + WordLength(s[1..])
  }

  /**
   * `s.split()`: the maximal whitespace-free runs of `s`, in order. There
   * are none exactly when `s` is all whitespace.
   */
  function SplitWords(s: string): (ws: seq<string>)
    ensures forall k :: 0 <= k < |ws| ==> IsWord(ws[k])
    ensures ws == [] <==> forall i :: 0 <= i < |s| ==> IsSpace(s[i])
    decreases |s|
  {
    if s == [] then []
    else if IsSpace(s[0]) then
      assert forall i :: 1 <= i < |s| ==> s[i] == s[1..][i - 1];
      SplitWords(s[1..])
    else
      var n := WordLength(s);
      assert s[..n][0] == s[0];
      [s[..n]] + SplitWords(s[n..])
  }

  /** Together the words of `s.split()` hold every non-space character of `s`. */
  lemma {:induction false} SplitWordsKeepsText(s: string)
    ensures Flatten(SplitWords(s)) == NonSpace(s)
    decreases |s|
  {
    if s == [] {
    } else if IsSpace(s[0]) {
      SplitWordsKeepsText(s[1..]);
    } else {
      var n := WordLength(s);
      SplitWordsKeepsText(s[n..]);
      NonSpacePrefix(s, n);
    }
  }

  /** `' '.join(ws)`. */
  function JoinWords(ws: seq<string>): string {
    if ws == [] then ""
    else if |ws| == 1 then ws[0]
    else ws[0] + " " + JoinWords(ws[1..])
  }

  /**
   * `' '.join(message.split())` (line 92): a collapsed text with the same
   * words as the message.
   */
  function Collapse(message: string): (r: string)
    ensures IsCollapsed(r)
    ensures SplitWords(r) == SplitWords(message)
  {
    JoinWordsShape(SplitWords(message));
    SplitJoinWords(SplitWords(message));
    JoinWords(SplitWords(message))
  }

  /**
   * `re.split(r'[.!?]', c)`: the pieces of `c` between terminators. There is
   * always at least one; none holds a terminator; the first is the prefix
   * of `c` that ends at the first terminator or at the end of `c`.
   */
  function SplitSentences(c: string): (r: seq<string>)
    ensures |r| >= 1
    ensures forall k, i :: 0 <= k < |r| && 0 <= i < |r[k]| ==> !IsTerminator(r[k][i])
    ensures |r[0]| <= |c| && r[0] == c[..|r[0]|]
    ensures |r[0]| == |c| || IsTerminator(c[|r[0]|])
  {
    if c == [] then [""]
    else
      var rest := SplitSentences(c[1..]);
      if IsTerminator(c[0]) then [""] + rest
      else
        var first := [c[0]] + rest[0];
        assert forall i :: 1 <= i < |first| ==> first[i] == rest[0][i - 1];
        [first] + rest[1..]
  }

  /** Number of whitespace characters at the start of `s`. */
  function LeadingSpaces(s: string): (n: nat)
    ensures n <= |s|
    ensures forall i :: 0 <= i < n ==> IsSpace(s[i])
    ensures n == |s| || !IsSpace(s[n])
  {
    if s == [] || !IsSpace(s[0]) then 0 else 1 + LeadingSpaces(s[1..])
  }

  /** Length of `s` without the whitespace at its end. */
  function KeptBeforeTrailing(s: string): (n: nat)
    ensures n <= |s|
    ensures forall i :: n <= i < |s| ==> IsSpace(s[i])
    ensures n == 0 || !IsSpace(s[n - 1])
  {
    if s == [] || !IsSpace(s[|s| - 1]) then |s| else KeptBeforeTrailing(s[..|s| - 1])
  }

  /** `s.lstrip()`. */
  function TrimStart(s: string): (r: string)
    ensures |r| <= |s| && r == s[|s| - |r|..]
    ensures r == [] || !IsSpace(r[0])
    ensures forall i :: 0 <= i < |s| - |r| ==> IsSpace(s[i])
  {
    s[LeadingSpaces(s)..]
  }

  /** `s.rstrip()`. */
  function TrimEnd(s: string): (r: string)
    ensures |r| <= |s| && r == s[..|r|]
    ensures r == [] || !IsSpace(r[|r| - 1])
    ensures forall i :: |r| <= i < |s| ==> IsSpace(s[i])
  {
    s[..KeptBeforeTrailing(s)]
  }

  /**
   * `s.strip()`: the piece of `s` left after its leading whitespace run and
   * its trailing whitespace run; it neither starts nor ends with whitespace.
   */
  function Strip(s: string): (r: string)
    ensures LeadingSpaces(s) + |r| <= |s| && r == s[LeadingSpaces(s)..LeadingSpaces(s) + |r|]
    ensures forall i :: LeadingSpaces(s) + |r| <= i < |s| ==> IsSpace(s[i])
    ensures r == [] || (!IsSpace(r[0]) && !IsSpace(r[|r| - 1]))
  {
    var a := LeadingSpaces(s);
    var t := TrimStart(s);
    var r := TrimEnd(t);
    assert t == s[a..];
    assert r == s[a..][..|r|] == s[a..a + |r|];
    forall i | a + |r| <= i < |s| ensures IsSpace(s[i]) {
      assert s[i] == t[i - a];
    }
    r
  }

  /**
   * The name before the length cap (lines 92-99): the whole cleaned message,
   * or a piece of it without sentence terminators.
   */
  function Candidate(message: string): (r: string)
    ensures r == Collapse(message) || NoTerminator(r)
  {
    var cleaned := Collapse(message);
    var sentences := SplitSentences(cleaned);
    if |sentences| > 0 && sentences[0] != "" then
      StripKeepsNoTerminator(sentences[0]);
      Strip(sentences[0])
    else cleaned
  }

  /** `name[:37] + '...'` for names over 40 characters (lines 102-103). */
  function Truncate(name: string): (r: string)
    ensures |r| <= MaxLength
    ensures |name| <= MaxLength ==> r == name
    ensures |name| > MaxLength ==> |r| == MaxLength && r[..KeptLength] == name[..KeptLength]
    ensures |name| > MaxLength ==> r[KeptLength..] == Ellipsis
  {
    if |name| > MaxLength then name[..KeptLength] + Ellipsis else name
  }

  /**
   * `generate_conversation_name` (lines 86-105): never empty and never over
   * 40 characters; a candidate over 40 characters keeps its first 37 and
   * ends in "..."; an empty candidate becomes "New Conversation".
   */
  function GenerateConversationName(message: string): (r: string)
    ensures r != "" && |r| <= MaxLength
    ensures |Candidate(message)| > MaxLength ==>
      |r| == MaxLength && r == Candidate(message)[..KeptLength] + Ellipsis
    ensures 0 < |Candidate(message)| <= MaxLength ==> r == Candidate(message)
    ensures Candidate(message) == "" ==> r == Fallback
  {
    var name := Truncate(Candidate(message));
    if name != "" then name else Fallback
  }

  // ---------------------------------------------------------------------
  // Lemmas

  /** Stripping takes a piece of its argument, so it adds no terminator. */
  lemma StripKeepsNoTerminator(s: string)
    requires NoTerminator(s)
    ensures NoTerminator(Strip(s))
  {
    var r, a := Strip(s), LeadingSpaces(s);
    forall i | 0 <= i < |r| ensures !IsTerminator(r[i]) {
      assert r[i] == s[a + i];
    }
  }

  /** `WordLength` is the only length with the properties its contract states. */
  lemma WordLengthUnique(s: string, n: nat)
    requires n <= |s|
    requires forall i :: 0 <= i < n ==> !IsSpace(s[i])
    requires n == |s| || IsSpace(s[n])
    ensures WordLength(s) == n
  {
  }

  /** A word followed by text that starts with whitespace is split off whole. */
  lemma SplitWholeWord(w: string, t: string)
    requires IsWord(w) && t != [] && IsSpace(t[0])
    ensures SplitWords(w + t) == [w] + SplitWords(t)
  {
    var s := w + t;
    assert forall i :: 0 <= i < |w| ==> s[i] == w[i];
    assert s[|w|] == t[0];
    WordLengthUnique(s, |w|);
    assert s[..|w|] == w && s[|w|..] == t;
  }

  /** A word is its own `split()`. */
  lemma SplitWordsOfWord(w: string)
    requires IsWord(w)
    ensures SplitWords(w) == [w]
  {
    WordLengthUnique(w, |w|);
    assert w[..|w|] == w && w[|w|..] == [];
  }

  /** Leading whitespace does not change `split()`. */
  lemma {:induction false} SplitWordsAfterSpaces(sp: string, v: string)
    requires forall i :: 0 <= i < |sp| ==> IsSpace(sp[i])
    ensures SplitWords(sp + v) == SplitWords(v)
    decreases |sp|
  {
    if sp == [] {
      assert sp + v == v;
    } else {
      assert (sp + v)[0] == sp[0] && (sp + v)[1..] == sp[1..] + v;
      SplitWordsAfterSpaces(sp[1..], v);
    }
  }

  /** The first word of `u` is the first word of `u + t` when whitespace ends it inside `u`. */
  lemma SplitFirstWord(u: string, t: string)
    requires u != [] && !IsSpace(u[0]) && WordLength(u) < |u|
    ensures SplitWords(u + t) == [u[..WordLength(u)]] + SplitWords(u[WordLength(u)..] + t)
  {
    var n, s := WordLength(u), u + t;
    assert forall i :: 0 <= i < |u| ==> s[i] == u[i];
    WordLengthUnique(s, n);
    assert s[..n] == u[..n] && s[n..] == u[n..] + t;
  }

  /** Dafny's concatenation is associative; stated once for word lists. */
  lemma ConsAppend(w: string, a: seq<string>, b: seq<string>, c: seq<string>)
    requires c == a + b
    ensures [w] + c == ([w] + a) + b
  {
  }

  /** `split()` cuts before whitespace: the words of `u + t` are those of `u`, then those of `t`. */
  lemma {:induction false} SplitWordsBeforeSpace(u: string, t: string)
    requires t != [] && IsSpace(t[0])
    ensures SplitWords(u + t) == SplitWords(u) + SplitWords(t)
    decreases |u|
  {
    if u == [] {
      assert u + t == t;
      assert SplitWords(u) == [];
    } else if IsSpace(u[0]) {
      assert (u + t)[0] == u[0] && (u + t)[1..] == u[1..] + t;
      assert SplitWords(u + t) == SplitWords(u[1..] + t);
      SplitWordsBeforeSpace(u[1..], t);
    } else {
      var n := WordLength(u);
      if n == |u| {
        SplitWordsOfWord(u);
        SplitWholeWord(u, t);
      } else {
        SplitWordsBeforeSpace(u[n..], t);
        SplitFirstWord(u, t);
        ConsAppend(u[..n], SplitWords(u[n..]), SplitWords(t), SplitWords(u[n..] + t));
      }
    }
  }

  /**
   * `split()` cuts at every whitespace run: the words of `u + sp + v`, for a
   * non-empty run `sp`, are the words of `u` followed by the words of `v`.
   */
  lemma SplitWordsAppend(u: string, sp: string, v: string)
    requires sp != [] && forall i :: 0 <= i < |sp| ==> IsSpace(sp[i])
    ensures SplitWords(u + sp + v) == SplitWords(u) + SplitWords(v)
  {
    assert u + sp + v == u + (sp + v);
    assert (sp + v)[0] == sp[0];
    SplitWordsBeforeSpace(u, sp + v);
    SplitWordsAfterSpaces(sp, v);
  }

  /** Splitting `' '.join(ws)` gives the words back. */
  lemma {:induction false} SplitJoinWords(ws: seq<string>)
    requires forall k :: 0 <= k < |ws| ==> IsWord(ws[k])
    ensures SplitWords(JoinWords(ws)) == ws
  {
    if |ws| == 1 {
      SplitWordsOfWord(ws[0]);
    } else if |ws| > 1 {
      SplitJoinWords(ws[1..]);
      SplitWordsOfWord(ws[0]);
      SplitWordsAppend(ws[0], " ", JoinWords(ws[1..]));
      assert [ws[0]] + ws[1..] == ws;
    }
  }

  /** `NonSpace` distributes over concatenation. */
  lemma {:induction false} NonSpaceAppend(a: string, b: string)
    ensures NonSpace(a + b) == NonSpace(a) + NonSpace(b)
  {
    if a == [] {
      assert a + b == b;
    } else {
      assert (a + b)[0] == a[0] && (a + b)[1..] == a[1..] + b;
      NonSpaceAppend(a[1..], b);
      assert NonSpace(a + b) == KeepChar(a[0]) + (NonSpace(a[1..]) + NonSpace(b));
    }
  }

  /** A string without whitespace is its own `NonSpace`. */
  lemma {:induction false} NonSpaceOfWord(w: string)
    requires forall i :: 0 <= i < |w| ==> !IsSpace(w[i])
    ensures NonSpace(w) == w
  {
    if w != [] {
      assert forall i :: 0 <= i < |w| - 1 ==> w[1..][i] == w[i + 1];
      NonSpaceOfWord(w[1..]);
    }
  }

  /** A whitespace-free prefix contributes itself to `NonSpace`. */
  lemma NonSpacePrefix(s: string, n: nat)
    requires n <= |s|
    requires forall i :: 0 <= i < n ==> !IsSpace(s[i])
    ensures NonSpace(s) == s[..n] + NonSpace(s[n..])
  {
    assert s == s[..n] + s[n..];
    NonSpaceAppend(s[..n], s[n..]);
    NonSpaceOfWord(s[..n]);
  }

  /** A word, a space and a collapsed non-empty string make a collapsed string. */
  lemma CollapsedJoin(a: string, b: string)
    requires IsWord(a) && IsCollapsed(b) && b != []
    ensures IsCollapsed(a + " " + b)
  {
    var c := a + " " + b;
    assert forall i :: 0 <= i < |a| ==> c[i] == a[i];
    assert forall j :: 0 <= j < |b| ==> c[|a| + 1 + j] == b[j];
    assert !IsSpace(b[0]);
    forall i | 0 <= i < |c| && IsSpace(c[i])
      ensures c[i] == ' ' && 0 < i < |c| - 1 && !IsSpace(c[i - 1]) && !IsSpace(c[i + 1])
    {
      if i > |a| {
        var j := i - |a| - 1;
        assert c[i] == b[j] && IsSpace(b[j]);
        assert j > 0 ==> c[i - 1] == b[j - 1];
        assert c[i + 1] == b[j + 1];
      }
    }
  }

  /** The space between two words is dropped by `NonSpace`. */
  lemma NonSpaceJoin(a: string, b: string)
    ensures NonSpace(a + " " + b) == NonSpace(a) + NonSpace(b)
  {
    var tail := " " + b;
    assert a + " " + b == a + tail;
    assert tail[0] == ' ' && tail[1..] == b;
    NonSpaceAppend(a, tail);
  }

  /**
   * `' '.join(ws)` of words is collapsed, empty only for no words, and holds
   * exactly the words' characters besides its separators.
   */
  lemma {:induction false} JoinWordsShape(ws: seq<string>)
    requires forall k :: 0 <= k < |ws| ==> IsWord(ws[k])
    ensures IsCollapsed(JoinWords(ws))
    ensures JoinWords(ws) == "" <==> ws == []
    ensures NonSpace(JoinWords(ws)) == Flatten(ws)
    ensures ws != [] ==> |JoinWords(ws)| == |Flatten(ws)| + |ws| - 1
  {
    if |ws| == 1 {
      NonSpacePrefix(ws[0], |ws[0]|);
      assert ws[0][|ws[0]|..] == [];
      assert Flatten(ws[1..]) == [];
    } else if |ws| > 1 {
      JoinWordsShape(ws[1..]);
      CollapsedJoin(ws[0], JoinWords(ws[1..]));
      NonSpaceOfWord(ws[0]);
      NonSpaceJoin(ws[0], JoinWords(ws[1..]));
    }
  }

  /** `' '.join(m.split())` is collapsed, and drops only whitespace from `m`. */
  lemma CollapseShape(m: string)
    ensures IsCollapsed(Collapse(m))
    ensures NonSpace(Collapse(m)) == NonSpace(m)
    ensures Collapse(m) == "" <==> forall i :: 0 <= i < |m| ==> IsSpace(m[i])
  {
    JoinWordsShape(SplitWords(m));
    SplitWordsKeepsText(m);
  }

  /** A string that does not start with whitespace is its own `lstrip()`. */
  lemma TrimStartNoop(s: string)
    requires s == [] || !IsSpace(s[0])
    ensures TrimStart(s) == s
  {
  }

  /** `re.split` puts an empty piece first when the text starts with a terminator. */
  lemma FirstPieceEmpty(c: string)
    requires c != [] && IsTerminator(c[0])
    ensures SplitSentences(c)[0] == []
  {
  }

  /**
   * `rstrip()` of a non-empty prefix of a collapsed string leaves a
   * non-empty collapsed prefix, having removed at most one space.
   */
  lemma TrimCollapsedPrefix(c: string, k: nat)
    requires IsCollapsed(c) && 0 < k <= |c|
    ensures var r := TrimEnd(c[..k]);
      && 0 < |r| && r == c[..|r|] && IsCollapsed(r)
      && (|r| == k || (|r| + 1 == k && c[|r|] == ' '))
  {
    var seg := c[..k];
    var r := TrimEnd(seg);
    var j := |r|;
    assert !IsSpace(c[0]);
    assert seg[0] == c[0];
    assert forall i :: 0 <= i < j ==> r[i] == c[i];
    forall i | 0 <= i < j && IsSpace(r[i])
      ensures r[i] == ' ' && 0 < i < j - 1 && !IsSpace(r[i - 1]) && !IsSpace(r[i + 1])
    {
      assert IsSpace(c[i]);
    }
    if j < k {
      assert IsSpace(seg[j]) && seg[j] == c[j];
      assert !IsSpace(c[j + 1]);
      assert forall i :: j <= i < k ==> seg[i] == c[i];
    }
  }

  /** The candidate is always a prefix of the collapsed message. */
  lemma CandidateIsPrefix(m: string)
    ensures |Candidate(m)| <= |Collapse(m)|
    ensures Candidate(m) == Collapse(m)[..|Candidate(m)|]
  {
    var c := Collapse(m);
    var seg := SplitSentences(c)[0];
    if seg != "" {
      TrimStartNoop(seg);
      assert Candidate(m) == TrimEnd(seg);
      TrimCollapsedPrefix(c, |seg|);
    }
  }

  /**
   * An empty or whitespace-only message leaves nothing to name, so the
   * result is "New Conversation"; any other message gives a non-empty
   * candidate.
   */
  lemma CandidateEmptyIff(m: string)
    ensures Candidate(m) == "" <==> forall i :: 0 <= i < |m| ==> IsSpace(m[i])
    ensures (forall i :: 0 <= i < |m| ==> IsSpace(m[i])) ==> GenerateConversationName(m) == Fallback
  {
    CollapseShape(m);
    var c := Collapse(m);
    var seg := SplitSentences(c)[0];
    if seg != "" {
      TrimStartNoop(seg);
      TrimCollapsedPrefix(c, |seg|);
    }
  }

  /**
   * When the collapsed message starts with '.', '!' or '?', the first piece
   * of the split is empty and the whole collapsed message is the candidate:
   * "..." is named "...".
   */
  lemma CandidateAfterLeadingTerminator(m: string)
    requires Collapse(m) != "" && IsTerminator(Collapse(m)[0])
    ensures Candidate(m) == Collapse(m)
    ensures GenerateConversationName(m) == Truncate(Collapse(m))
  {
    FirstPieceEmpty(Collapse(m));
  }

  /**
   * Otherwise the candidate is the first sentence: a non-empty prefix of the
   * collapsed message with no terminator and no leading, trailing or double
   * space, which stops only at the end of the message or at a terminator
   * (possibly after the one space that `strip` removed).
   */
  lemma CandidateFirstSentence(m: string)
    requires Collapse(m) != "" && !IsTerminator(Collapse(m)[0])
    ensures var r, c := Candidate(m), Collapse(m);
      && r != ""
      && |r| <= |c| && r == c[..|r|]
      && NoTerminator(r)
      && IsCollapsed(r)
      && (|r| == |c| || IsTerminator(c[|r|]) || (c[|r|] == ' ' && |r| + 1 < |c| && IsTerminator(c[|r| + 1])))
  {
    var c := Collapse(m);
    CollapseShape(m);
    var seg := SplitSentences(c)[0];
    var k := |seg|;
    assert seg == c[..k];
    assert k > 0;
    TrimStartNoop(seg);
    TrimCollapsedPrefix(c, k);
    var r := TrimEnd(seg);
    assert forall i :: 0 <= i < |r| ==> r[i] == seg[i];
    assert |r| < k ==> |r| + 1 < |c|;
  }

  /** Collapsing an already collapsed string changes nothing. */
  lemma {:induction false} CollapseOfCollapsed(c: string)
    requires IsCollapsed(c)
    ensures Collapse(c) == c
    decreases |c|
  {
    if c != [] {
      assert !IsSpace(c[0]);
      var n := WordLength(c);
      if n == |c| {
        assert c[..n] == c && c[n..] == [];
      } else {
        var w, rest := c[..n], c[n + 1..];
        assert c[n] == ' ' && c == w + " " + rest;
        assert IsCollapsed(rest) by {
          forall i | 0 <= i < |rest| && IsSpace(rest[i])
            ensures rest[i] == ' ' && 0 < i < |rest| - 1 && !IsSpace(rest[i - 1]) && !IsSpace(rest[i + 1])
          {
            assert rest[i] == c[n + 1 + i];
            assert i > 0 ==> rest[i - 1] == c[n + i];
            assert rest[i + 1] == c[n + 2 + i];
          }
        }
        assert rest != [] && !IsSpace(rest[0]);
        CollapseOfCollapsed(rest);
        assert c[n..][1..] == rest;
        assert SplitWords(c) == [w] + SplitWords(rest);
        assert SplitWords(rest) != [];
      }
    }
  }

  /** `' '.join(m.split())` is idempotent. */
  lemma CollapseIdempotent(m: string)
    ensures Collapse(Collapse(m)) == Collapse(m)
  {
    CollapseShape(m);
    CollapseOfCollapsed(Collapse(m));
  }

  /** A collapsed, terminator-free message is its own candidate. */
  lemma CandidateOfSentence(m: string)
    requires m != [] && IsCollapsed(m) && NoTerminator(m)
    ensures Candidate(m) == m
  {
    CollapseOfCollapsed(m);
    CandidateFirstSentence(m);
  }

  /**
   * A message that is already one clean sentence is named by itself, cut
   * to 37 characters and "..." when it is over 40.
   */
  lemma SentenceName(m: string)
    requires m != [] && IsCollapsed(m) && NoTerminator(m)
    ensures |m| <= MaxLength ==> GenerateConversationName(m) == m
    ensures |m| > MaxLength ==> GenerateConversationName(m) == m[..KeptLength] + Ellipsis
  {
    CandidateOfSentence(m);
  }

  /** "..." starts with a terminator, so it is named "...", not "New Conversation". */
  lemma ExampleDots()
    ensures GenerateConversationName("...") == "..."
  {
    assert "..."[3..] == [] && "..."[..3] == "...";
    assert WordLength("..."[3..]) == 0;
    assert WordLength("..."[2..]) == 1;
    assert WordLength("..."[1..]) == 2;
    assert WordLength("...") == 3;
    assert SplitWords("...") == ["..."];
    CandidateAfterLeadingTerminator("...");
  }
}
