/** Scope strings: splitting, normalisation, inclusion. */
module OAuthScope {
  import opened Wrappers
  import WhiteSpace

  const DEFAULT_SCOPE := "planweave:mcp"
  const OFFLINE_SCOPE := "offline_access"
  const BOTH_SCOPES := DEFAULT_SCOPE + " " + OFFLINE_SCOPE

  predicate IsSpace(c: char) {
    WhiteSpace.IsWhite(c as int)
  }

  ghost predicate NoSpace(s: string) {
    forall i :: 0 <= i < |s| ==> !IsSpace(s[i])
  }

  function WordLength(s: string): (n: nat)
    ensures n <= |s| && NoSpace(s[..n]) && (n < |s| ==> IsSpace(s[n]))
  {
    if s == [] || IsSpace(s[0]) then 0 else 1 + WordLength(s[1..])
  }

  function TrimStart(s: string): (r: string)
    ensures |r| <= |s| && (s != [] && IsSpace(s[0]) ==> |r| < |s|)
    ensures r != [] ==> !IsSpace(r[0])
  {
    WhiteSpace.TrimStart(IsSpace, s)
  }

  function Trim(s: string): string {
    WhiteSpace.Trim(IsSpace, s)
  }

  /** `split(/\s+/)`: the pieces between maximal runs of white space, empty ends included. */
  function Split(s: string): (r: seq<string>)
    ensures r != []
    decreases |s|
  {
    var n := WordLength(s);
    if n == |s| then [s] else [s[..n]] + Split(TrimStart(s[n..]))
  }

  function Pieces(s: string): set<string> {
    set p | p in Split(s)
  }

  function NormalizeScope(value: Option<string>): Option<string> {
    NormalForm(if value.Some? && Trim(value.value) != "" then Pieces(Trim(value.value)) else {DEFAULT_SCOPE})
  }

  /** The scope string for a set of scopes, if they are known and include the default. */
  function NormalForm(scopes: set<string>): Option<string> {
    if DEFAULT_SCOPE !in scopes || exists p | p in scopes :: p != DEFAULT_SCOPE && p != OFFLINE_SCOPE then None
    else if OFFLINE_SCOPE in scopes then Some(BOTH_SCOPES)
    else Some(DEFAULT_SCOPE)
  }

  predicate IncludesDefault(value: string) {
    DEFAULT_SCOPE in Split(value)
  }

  predicate IncludesOffline(value: string) {
    OFFLINE_SCOPE in Split(value)
  }

  predicate IsSubset(value: string, granted: string) {
    forall p | p in Split(value) :: p in Pieces(granted)
  }

  // ---------------------------------------------------------------------------------------------

  lemma {:induction false} WordLengthOf(w: string, rest: string)
    requires NoSpace(w) && (rest == "" || IsSpace(rest[0]))
    ensures WordLength(w + rest) == |w|
  {
    if w == [] {
      assert w + rest == rest;
    } else {
      assert (w + rest)[1..] == w[1..] + rest;
      WordLengthOf(w[1..], rest);
    }
  }

  lemma SplitWord(w: string)
    requires NoSpace(w)
    ensures Split(w) == [w]
  {
    WordLengthOf(w, "");
    assert w + "" == w;
  }

  lemma SplitTwoWords(v: string, w: string)
    requires NoSpace(v) && NoSpace(w) && w != ""
    ensures Split(v + " " + w) == [v, w]
  {
    var s := v + " " + w;
    assert s == v + (" " + w);
    WordLengthOf(v, " " + w);
    assert s[..|v|] == v && s[|v|..] == " " + w;
    assert (" " + w)[1..] == w;
    assert TrimStart(w) == w;
    assert TrimStart(" " + w) == w;
    SplitWord(w);
  }

  lemma DefaultHasNoSpace()
    ensures NoSpace(DEFAULT_SCOPE)
  {
  }

  lemma OfflineHasNoSpace()
    ensures NoSpace(OFFLINE_SCOPE)
  {
  }

  lemma SplitNormalForms()
    ensures Split(DEFAULT_SCOPE) == [DEFAULT_SCOPE]
    ensures Split(BOTH_SCOPES) == [DEFAULT_SCOPE, OFFLINE_SCOPE]
    ensures DEFAULT_SCOPE != OFFLINE_SCOPE
  {
    DefaultHasNoSpace();
    OfflineHasNoSpace();
    SplitWord(DEFAULT_SCOPE);
    SplitTwoWords(DEFAULT_SCOPE, OFFLINE_SCOPE);
    assert DEFAULT_SCOPE[0] != OFFLINE_SCOPE[0];
  }

  lemma TrimIsIdentity(s: string)
    requires s != "" && !IsSpace(s[0]) && !IsSpace(s[|s| - 1])
    ensures Trim(s) == s
  {
  }

  lemma TwoWords(v: string, w: string)
    requires NoSpace(v) && NoSpace(w) && v != "" && w != ""
    ensures Trim(v + " " + w) == v + " " + w && Pieces(v + " " + w) == {v, w}
  {
    SplitTwoWords(v, w);
    var s := v + " " + w;
    assert s[0] == v[0] && s[|s| - 1] == w[|w| - 1];
    TrimIsIdentity(s);
  }

  lemma NormalizeTrimmed(s: string, pieces: set<string>)
    requires s != "" && Trim(s) == s && Pieces(s) == pieces
    requires DEFAULT_SCOPE in pieces && pieces <= {DEFAULT_SCOPE, OFFLINE_SCOPE}
    ensures NormalizeScope(Some(s)) == Some(if OFFLINE_SCOPE in pieces then BOTH_SCOPES else DEFAULT_SCOPE)
  {
    KnownForm(pieces);
  }

  lemma KnownForm(pieces: set<string>)
    requires DEFAULT_SCOPE in pieces && pieces <= {DEFAULT_SCOPE, OFFLINE_SCOPE}
    ensures NormalForm(pieces) == Some(if OFFLINE_SCOPE in pieces then BOTH_SCOPES else DEFAULT_SCOPE)
  {
    assert forall p :: p in pieces ==> p in {DEFAULT_SCOPE, OFFLINE_SCOPE};
  }

  lemma OneWord(v: string)
    requires NoSpace(v) && v != ""
    ensures Trim(v) == v && Pieces(v) == {v}
  {
    SplitWord(v);
    TrimIsIdentity(v);
  }

  lemma NormalizeDefault()
    ensures NormalizeScope(Some(DEFAULT_SCOPE)) == Some(DEFAULT_SCOPE)
  {
    DefaultHasNoSpace();
    SplitNormalForms();
    OneWord(DEFAULT_SCOPE);
    NormalizeTrimmed(DEFAULT_SCOPE, {DEFAULT_SCOPE});
  }

  lemma NormalizeBoth()
    ensures NormalizeScope(Some(BOTH_SCOPES)) == Some(BOTH_SCOPES)
  {
    DefaultHasNoSpace();
    OfflineHasNoSpace();
    TwoWords(DEFAULT_SCOPE, OFFLINE_SCOPE);
    NormalizeTrimmed(BOTH_SCOPES, {DEFAULT_SCOPE, OFFLINE_SCOPE});
  }

  /** Normalisation has two results and fixes both, so normalising twice changes nothing. */
  lemma NormalizeIdempotent(value: Option<string>)
    requires NormalizeScope(value).Some?
    ensures NormalizeScope(value).value in {DEFAULT_SCOPE, BOTH_SCOPES}
    ensures NormalizeScope(NormalizeScope(value)) == NormalizeScope(value)
  {
    NormalizeDefault();
    NormalizeBoth();
  }

  /** A normalised scope always includes the default scope, and includes offline access exactly
      when it is the longer of the two normal forms. */
  lemma NormalFormIncludes(s: string)
    requires s == DEFAULT_SCOPE || s == BOTH_SCOPES
    ensures IncludesDefault(s) && (IncludesOffline(s) <==> s == BOTH_SCOPES)
  {
    SplitNormalForms();
    assert |BOTH_SCOPES| > |DEFAULT_SCOPE|;
  }

  lemma SubsetReflexive(a: string)
    ensures IsSubset(a, a)
  {
  }

  lemma SubsetTransitive(a: string, b: string, c: string)
    requires IsSubset(a, b) && IsSubset(b, c)
    ensures IsSubset(a, c)
  {
  }

  /** On normal forms, inclusion only ever drops offline access. */
  lemma SubsetOfNormalForm(a: string, b: string)
    requires a in {DEFAULT_SCOPE, BOTH_SCOPES} && b in {DEFAULT_SCOPE, BOTH_SCOPES}
    ensures IsSubset(a, b) <==> a == b || a == DEFAULT_SCOPE
  {
    SplitNormalForms();
    assert OFFLINE_SCOPE in Split(BOTH_SCOPES);
    assert DEFAULT_SCOPE in Split(BOTH_SCOPES);
  }

  // ---------------------------------------------------------------------------------------------
  // Words

  /** `s[i..j]` is a run of characters that are no white space, and cannot be extended. */
  ghost predicate WordAt(s: string, i: nat, j: nat) {
    i < j <= |s| && NoSpace(s[i..j]) && (i == 0 || IsSpace(s[i - 1])) && (j == |s| || IsSpace(s[j]))
  }

  ghost predicate IsWordOf(w: string, s: string) {
    exists i: nat, j: nat :: WordAt(s, i, j) && s[i..j] == w
  }

  lemma TailWord(w: string, s: string, m: nat)
    requires m <= |s| && (m == 0 || IsSpace(s[m - 1])) && IsWordOf(w, s[m..])
    ensures IsWordOf(w, s)
  {
    var i: nat, j: nat :| WordAt(s[m..], i, j) && s[m..][i..j] == w;
    assert s[i + m..j + m] == w;
    assert WordAt(s, i + m, j + m);
  }

  lemma WordInTail(w: string, s: string, m: nat, i: nat, j: nat)
    requires m <= i && WordAt(s, i, j) && s[i..j] == w
    ensures IsWordOf(w, s[m..])
  {
    assert s[m..][i - m..j - m] == w;
    assert WordAt(s[m..], i - m, j - m);
  }

  lemma OnlyWord(w: string, s: string)
    requires NoSpace(s)
    ensures IsWordOf(w, s) <==> w == s && w != ""
  {
    if IsWordOf(w, s) {
      var i: nat, j: nat :| WordAt(s, i, j) && s[i..j] == w;
      assert s[i..j] == s;
    }
    if w == s && w != "" {
      assert s[0..|s|] == s && WordAt(s, 0, |s|);
    }
  }

  /** What trimming leaves is a tail behind white space. */
  lemma {:induction false} TrimmedTail(s: string)
    ensures var m := |s| - |TrimStart(s)|;
            m >= 0 && TrimStart(s) == s[m..] && forall k :: 0 <= k < m ==> IsSpace(s[k])
  {
    if s != [] && IsSpace(s[0]) {
      TrimmedTail(s[1..]);
      assert TrimStart(s) == TrimStart(s[1..]);
      var m := |s[1..]| - |TrimStart(s[1..])|;
      assert s[1..][m..] == s[m + 1..];
      forall k | 0 <= k < m + 1 ensures IsSpace(s[k]) {
        assert k > 0 ==> s[1..][k - 1] == s[k];
      }
    }
  }

  lemma WordsOfTrimStart(w: string, s: string)
    ensures IsWordOf(w, TrimStart(s)) <==> IsWordOf(w, s)
  {
    var m := |s| - |TrimStart(s)|;
    TrimmedTail(s);
    if IsWordOf(w, s[m..]) {
      TailWord(w, s, m);
    }
    if IsWordOf(w, s) {
      var i: nat, j: nat :| WordAt(s, i, j) && s[i..j] == w;
      assert w[0] == s[i];
      WordInTail(w, s, m, i, j);
    }
  }

  lemma {:induction false} WordsOfTrimEnd(w: string, s: string)
    ensures IsWordOf(w, WhiteSpace.TrimEnd(IsSpace, s)) <==> IsWordOf(w, s)
  {
    if s != [] && IsSpace(s[|s| - 1]) {
      var t := s[..|s| - 1];
      WordsOfTrimEnd(w, t);
      WordsBeforeSpace(w, t, s[|s| - 1]);
      assert t + [s[|s| - 1]] == s;
    }
  }

  lemma WordsBeforeSpace(w: string, t: string, c: char)
    requires IsSpace(c)
    ensures IsWordOf(w, t) <==> IsWordOf(w, t + [c])
  {
    var s := t + [c];
    if IsWordOf(w, t) {
      var i: nat, j: nat :| WordAt(t, i, j) && t[i..j] == w;
      assert s[i..j] == w && WordAt(s, i, j);
    }
    if IsWordOf(w, s) {
      var i: nat, j: nat :| WordAt(s, i, j) && s[i..j] == w;
      assert s[i..j][j - 1 - i] == s[j - 1];
      assert t[i..j] == w && WordAt(t, i, j);
    }
  }

  lemma WordsOfTrim(w: string, s: string)
    ensures IsWordOf(w, Trim(s)) <==> IsWordOf(w, s)
  {
    WordsOfTrimStart(w, s);
    WordsOfTrimEnd(w, TrimStart(s));
  }

  /** The first word, or one behind it. */
  lemma WordBehind(w: string, s: string, n: nat)
    requires n < |s| && IsSpace(s[n]) && IsWordOf(w, s[n..])
    ensures IsWordOf(w, s)
  {
    var i: nat, j: nat :| WordAt(s[n..], i, j) && s[n..][i..j] == w;
    assert w[0] == s[n..][i];
    assert s[i + n..j + n] == w;
    assert WordAt(s, i + n, j + n);
  }

  lemma WordInFront(s: string, n: nat, i: nat, j: nat)
    requires n < |s| && NoSpace(s[..n]) && IsSpace(s[n]) && i < n && WordAt(s, i, j)
    ensures i == 0 && j == n
  {
    assert forall k :: 0 <= k < n ==> s[..n][k] == s[k];
    assert forall k :: i <= k < j ==> s[i..j][k - i] == s[k];
    assert forall k :: i <= k < j ==> !IsSpace(s[k]);
  }

  /** The first word, or one behind it. */
  lemma FirstWord(w: string, s: string, n: nat)
    requires n < |s| && NoSpace(s[..n]) && IsSpace(s[n])
    ensures IsWordOf(w, s) <==> (w == s[..n] && w != "") || IsWordOf(w, s[n..])
  {
    if w == s[..n] && w != "" {
      assert s[0..n] == s[..n] && WordAt(s, 0, n);
    }
    if IsWordOf(w, s[n..]) {
      WordBehind(w, s, n);
    }
    if IsWordOf(w, s) {
      var i: nat, j: nat :| WordAt(s, i, j) && s[i..j] == w;
      if i >= n {
        WordInTail(w, s, n, i, j);
      } else {
        WordInFront(s, n, i, j);
      }
    }
  }

  /** The pieces are the words, and perhaps the empty string. */
  lemma {:induction false} PiecesAreWords(w: string, s: string)
    requires w != ""
    ensures w in Split(s) <==> IsWordOf(w, s)
    decreases |s|
  {
    var n := WordLength(s);
    if n == |s| {
      assert s[..n] == s;
      OnlyWord(w, s);
    } else {
      var rest := TrimStart(s[n..]);
      PiecesAreWords(w, rest);
      WordsOfTrimStart(w, s[n..]);
      FirstWord(w, s, n);
    }
  }

  lemma {:induction false} NoEmptyPiece(s: string)
    requires s != "" && !IsSpace(s[0]) && !IsSpace(s[|s| - 1])
    ensures "" !in Split(s)
    decreases |s|
  {
    var n := WordLength(s);
    assert n > 0;
    if n < |s| {
      TrimmedTail(s[n..]);
      assert s[n..][|s| - n - 1] == s[|s| - 1];
      NoEmptyPiece(TrimStart(s[n..]));
    }
  }

  /** The scope that says what the text says: its words are those of the text, and a text without words
      says the default. */
  ghost predicate IsNormalFormOf(scope: string, text: string) {
    || (scope == DEFAULT_SCOPE && forall w :: IsWordOf(w, text) ==> w == DEFAULT_SCOPE)
    || (scope == BOTH_SCOPES && forall w :: IsWordOf(w, text) <==> w == DEFAULT_SCOPE || w == OFFLINE_SCOPE)
  }

  lemma NothingTrimmed(s: string)
    requires Trim(s) == ""
    ensures forall w :: !IsWordOf(w, s)
  {
    forall w ensures !IsWordOf(w, s) {
      WordsOfTrim(w, s);
    }
  }

  /** The pieces of a trimmed text are its words; there is at least one. */
  lemma TrimmedPieces(s: string)
    requires Trim(s) != ""
    ensures Pieces(Trim(s)) != {} && forall w :: w in Pieces(Trim(s)) <==> IsWordOf(w, s)
  {
    var t := Trim(s);
    NoEmptyPiece(t);
    assert Split(t)[0] in Pieces(t);
    forall w ensures w in Pieces(t) <==> IsWordOf(w, s) {
      if w != "" {
        PiecesAreWords(w, t);
        WordsOfTrim(w, s);
      }
    }
  }

  lemma FormsDiffer()
    ensures DEFAULT_SCOPE != OFFLINE_SCOPE && DEFAULT_SCOPE != BOTH_SCOPES
  {
    assert DEFAULT_SCOPE[0] != OFFLINE_SCOPE[0];
    assert |BOTH_SCOPES| > |DEFAULT_SCOPE|;
  }

  lemma FormOfPieces(pieces: set<string>)
    ensures NormalForm(pieces) == Some(DEFAULT_SCOPE) <==> pieces == {DEFAULT_SCOPE}
    ensures NormalForm(pieces) == Some(BOTH_SCOPES) <==> pieces == {DEFAULT_SCOPE, OFFLINE_SCOPE}
    ensures NormalForm(pieces) in {None, Some(DEFAULT_SCOPE), Some(BOTH_SCOPES)}
  {
    FormsDiffer();
    if NormalForm(pieces).Some? {
      assert pieces <= {DEFAULT_SCOPE, OFFLINE_SCOPE};
    }
  }

  /** A text normalises to the scope with the same words, and to none when there is no such scope. A
      scope that is not given normalises to the default. */
  lemma NormalizeMeans(text: string, scope: string)
    ensures NormalizeScope(Some(text)) == Some(scope) <==> IsNormalFormOf(scope, text)
    ensures NormalizeScope(None) == Some(DEFAULT_SCOPE)
  {
    FormsDiffer();
    FormOfPieces({DEFAULT_SCOPE});
    if Trim(text) == "" {
      NothingTrimmed(text);
      assert !IsWordOf(DEFAULT_SCOPE, text);
    } else {
      TrimmedPieces(text);
      FormOfWords(Pieces(Trim(text)), text, scope);
    }
  }

  lemma FormOfWords(pieces: set<string>, text: string, scope: string)
    requires pieces != {} && forall w :: w in pieces <==> IsWordOf(w, text)
    ensures NormalForm(pieces) == Some(scope) <==> IsNormalFormOf(scope, text)
  {
    FormOfPieces(pieces);
    FormsDiffer();
    var w :| w in pieces;
    if forall w :: IsWordOf(w, text) ==> w == DEFAULT_SCOPE {
      assert pieces == {DEFAULT_SCOPE};
    }
    if forall w :: IsWordOf(w, text) <==> w == DEFAULT_SCOPE || w == OFFLINE_SCOPE {
      assert pieces == {DEFAULT_SCOPE, OFFLINE_SCOPE};
    }
  }

  /** What a scope includes are its words. */
  lemma IncludesMeans(s: string)
    ensures IncludesDefault(s) <==> IsWordOf(DEFAULT_SCOPE, s)
    ensures IncludesOffline(s) <==> IsWordOf(OFFLINE_SCOPE, s)
  {
    PiecesAreWords(DEFAULT_SCOPE, s);
    PiecesAreWords(OFFLINE_SCOPE, s);
  }

  lemma PiecesOfNormalForm(a: string)
    requires a == DEFAULT_SCOPE || a == BOTH_SCOPES
    ensures Split(a) == if a == DEFAULT_SCOPE then [DEFAULT_SCOPE] else [DEFAULT_SCOPE, OFFLINE_SCOPE]
  {
    SplitNormalForms();
    FormsDiffer();
  }

  lemma SubsetMeans(a: string, b: string)
    requires a == DEFAULT_SCOPE || a == BOTH_SCOPES
    ensures IsSubset(a, b) <==> IsWordOf(DEFAULT_SCOPE, b) && (a == BOTH_SCOPES ==> IsWordOf(OFFLINE_SCOPE, b))
  {
    FormsDiffer();
    PiecesOfNormalForm(a);
    PiecesAreWords(DEFAULT_SCOPE, b);
    PiecesAreWords(OFFLINE_SCOPE, b);
    SubsetOfPieces(a, b, DEFAULT_SCOPE, if a == BOTH_SCOPES then OFFLINE_SCOPE else DEFAULT_SCOPE);
  }

  lemma SubsetOfPieces(a: string, b: string, v: string, w: string)
    requires Split(a) == [v, w] || (Split(a) == [v] && w == v)
    ensures IsSubset(a, b) <==> v in Split(b) && w in Split(b)
  {
    assert Split(a)[0] == v && Split(a)[|Split(a)| - 1] == w;
    assert v in Split(a) && w in Split(a);
  }

  /** Whether a text has a normal form within the words of another. */
  ghost predicate WithinWords(text: string, granted: string) {
    && (forall w :: IsWordOf(w, text) ==> w == DEFAULT_SCOPE || w == OFFLINE_SCOPE)
    && (IsWordOf(OFFLINE_SCOPE, text) ==> IsWordOf(DEFAULT_SCOPE, text) && IsWordOf(OFFLINE_SCOPE, granted))
    && IsWordOf(DEFAULT_SCOPE, granted)
  }

  lemma NormalWithin(text: string, granted: string)
    ensures NormalizeScope(Some(text)).Some? && IsSubset(NormalizeScope(Some(text)).value, granted) <==> WithinWords(text, granted)
  {
    var n := NormalizeScope(Some(text));
    NormalizeMeans(text, DEFAULT_SCOPE);
    NormalizeMeans(text, BOTH_SCOPES);
    FormsDiffer();
    if n.Some? {
      NormalizeIdempotent(Some(text));
      SubsetMeans(n.value, granted);
    }
  }
}
