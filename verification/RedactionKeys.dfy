/** Which structured keys are protocol identities and which hold credentials. */
module RedactionKeys {
  import opened JsonText

  function KeptUnit(u: Unit): Text {
    if 0x61 <= u <= 0x7A || 0x30 <= u <= 0x39 then [u]
    else if 0x41 <= u <= 0x5A then [u + 0x20]
    else []
  }

  /** ASCII letters and digits only, in lower case. */
  function NormalizedKey(key: Text): Text {
    if key == [] then [] else KeptUnit(key[0]) + NormalizedKey(key[1..])
  }

  const IDENTITY_KEYS: set<Text> :=
    {Ascii("id"), Ascii("optionid"), Ascii("requestid"), Ascii("sessionid"), Ascii("toolcallid"), Ascii("messageid"),
     Ascii("interactionid"), Ascii("operationid"), Ascii("elicitationid"), Ascii("terminalid"), Ascii("planid"), Ascii("runid"),
     Ascii("executorrunid"), Ascii("desktoprunid"), Ascii("runsessionid")}

  const SENSITIVE_ENDINGS: seq<Text> :=
    [Ascii("password"), Ascii("passphrase"), Ascii("secret"), Ascii("token"), Ascii("credential"), Ascii("authorization"),
     Ascii("apikey"), Ascii("cookie")]

  predicate IsIdentityKey(key: Text) {
    NormalizedKey(key) in IDENTITY_KEYS
  }

  predicate EndsWith(t: Text, ending: Text) {
    |ending| <= |t| && t[|t| - |ending|..] == ending
  }

  predicate IsSensitiveKey(key: Text) {
    exists i :: 0 <= i < |SENSITIVE_ENDINGS| && EndsWith(NormalizedKey(key), SENSITIVE_ENDINGS[i])
  }

  /** The last two units. */
  function Tail2(t: Text): (r: (Unit, Unit))
    requires |t| >= 2
  {
    (t[|t| - 2], t[|t| - 1])
  }

  lemma IdentityKeysEndInId(t: Text)
    requires t in IDENTITY_KEYS
    ensures |t| >= 2 && Tail2(t) == (0x69, 0x64)
  {
  }

  lemma EndingTail(t: Text, ending: Text)
    requires EndsWith(t, ending) && |ending| >= 2
    ensures Tail2(t) == Tail2(ending)
  {
    assert ending[|ending| - 1] == t[|t| - |ending|..][|ending| - 1];
    assert ending[|ending| - 2] == t[|t| - |ending|..][|ending| - 2];
  }

  lemma EndingsDoNotEndInId(i: nat)
    requires i < |SENSITIVE_ENDINGS|
    ensures |SENSITIVE_ENDINGS[i]| >= 2 && Tail2(SENSITIVE_ENDINGS[i]) != (0x69, 0x64)
  {
  }

  /** No key is both, so the identity exemption never exposes a sensitive key. */
  lemma IdentityIsNotSensitive(key: Text)
    requires IsIdentityKey(key)
    ensures !IsSensitiveKey(key)
  {
    var t := NormalizedKey(key);
    IdentityKeysEndInId(t);
    forall i | 0 <= i < |SENSITIVE_ENDINGS| ensures !EndsWith(t, SENSITIVE_ENDINGS[i]) {
      EndingsDoNotEndInId(i);
      if EndsWith(t, SENSITIVE_ENDINGS[i]) {
        EndingTail(t, SENSITIVE_ENDINGS[i]);
      }
    }
  }

  // ---------------------------------------------------------------------------------------------
  // What the keys look like

  /** The letter or digit, or its capital. */
  predicate SameLetter(u: Unit, letter: Unit) {
    u == letter || (0x41 <= u <= 0x5A && u + 0x20 == letter)
  }

  /** The letters and digits of the text spell the word, in any case; other units are skipped. */
  predicate Spells(t: Text, word: Text) {
    if t == [] then word == []
    else if !IsAlphanumeric(t[0]) then Spells(t[1..], word)
    else word != [] && SameLetter(t[0], word[0]) && Spells(t[1..], word[1..])
  }

  ghost predicate EndSpells(key: Text, word: Text) {
    exists n: nat :: n <= |key| && Spells(key[n..], word)
  }

  /** Small letters and digits. */
  predicate SmallWord(word: Text) {
    forall i :: 0 <= i < |word| ==> 0x61 <= word[i] <= 0x7A || 0x30 <= word[i] <= 0x39
  }

  lemma {:induction false} SpellingIsNormal(t: Text, word: Text)
    requires SmallWord(word)
    ensures Spells(t, word) <==> NormalizedKey(t) == word
  {
    if t != [] {
      if !IsAlphanumeric(t[0]) {
        SpellingIsNormal(t[1..], word);
      } else if word != [] {
        SpellingIsNormal(t[1..], word[1..]);
        assert word == [word[0]] + word[1..];
        assert NormalizedKey(t)[1..] == NormalizedKey(t[1..]);
      }
    }
  }

  lemma {:induction false} NormalizedConcat(a: Text, b: Text)
    ensures NormalizedKey(a + b) == NormalizedKey(a) + NormalizedKey(b)
  {
    if a == [] {
      assert a + b == b;
    } else {
      assert (a + b)[1..] == a[1..] + b;
      NormalizedConcat(a[1..], b);
    }
  }

  /** An ending of the normalised key is what some tail of the key normalises to. */
  lemma {:induction false} EndingIsTail(key: Text, word: Text) returns (n: nat)
    requires EndsWith(NormalizedKey(key), word)
    ensures n <= |key| && NormalizedKey(key[n..]) == word
  {
    var t := NormalizedKey(key);
    if |t| == |word| {
      assert t[0..] == t && key[0..] == key;
      n := 0;
    } else {
      var rest := NormalizedKey(key[1..]);
      assert t[|t| - |word|..] == rest[|rest| - |word|..];
      n := EndingIsTail(key[1..], word);
      assert key[1..][n..] == key[n + 1..];
      n := n + 1;
    }
  }

  lemma EndingSpelled(key: Text, word: Text)
    requires SmallWord(word)
    ensures EndsWith(NormalizedKey(key), word) <==> EndSpells(key, word)
  {
    if EndsWith(NormalizedKey(key), word) {
      var n := EndingIsTail(key, word);
      SpellingIsNormal(key[n..], word);
    }
    if EndSpells(key, word) {
      var n: nat :| n <= |key| && Spells(key[n..], word);
      SpelledTail(key, word, n);
    }
  }

  lemma SpelledTail(key: Text, word: Text, n: nat)
    requires SmallWord(word) && n <= |key| && Spells(key[n..], word)
    ensures EndsWith(NormalizedKey(key), word)
  {
    SpellingIsNormal(key[n..], word);
    NormalizedConcat(key[..n], key[n..]);
    assert key[..n] + key[n..] == key;
    Ends(NormalizedKey(key[..n]), word);
  }

  lemma Ends(before: Text, word: Text)
    ensures EndsWith(before + word, word)
  {
  }

  lemma SmallLetters(s: string)
    requires forall i :: 0 <= i < |s| ==> 'a' <= s[i] <= 'z'
    ensures SmallWord(Ascii(s))
  {
  }

  lemma EndingsAreSmall(i: nat)
    requires i < |SENSITIVE_ENDINGS|
    ensures SmallWord(SENSITIVE_ENDINGS[i])
  {
    SmallLetters("password"); SmallLetters("passphrase"); SmallLetters("secret"); SmallLetters("token");
    SmallLetters("credential"); SmallLetters("authorization"); SmallLetters("apikey"); SmallLetters("cookie");
  }

  lemma NamesAreSmall(w: Text)
    requires w in IDENTITY_KEYS
    ensures SmallWord(w)
  {
    SmallLetters("id"); SmallLetters("optionid"); SmallLetters("requestid"); SmallLetters("sessionid");
    SmallLetters("toolcallid"); SmallLetters("messageid"); SmallLetters("interactionid"); SmallLetters("operationid");
    SmallLetters("elicitationid"); SmallLetters("terminalid"); SmallLetters("planid"); SmallLetters("runid");
    SmallLetters("executorrunid"); SmallLetters("desktoprunid"); SmallLetters("runsessionid");
  }

  /** The key ends in one of eight words, in any case and whatever else than letters and digits stands
      between or behind the letters. */
  ghost predicate NamesCredential(key: Text) {
    || EndSpells(key, Ascii("password")) || EndSpells(key, Ascii("passphrase")) || EndSpells(key, Ascii("secret"))
    || EndSpells(key, Ascii("token")) || EndSpells(key, Ascii("credential")) || EndSpells(key, Ascii("authorization"))
    || EndSpells(key, Ascii("apikey")) || EndSpells(key, Ascii("cookie"))
  }

  /** The key spells one of the identity names, in any case and whatever stands in between. */
  ghost predicate NamesIdentity(key: Text) {
    exists w :: w in IDENTITY_KEYS && Spells(key, w)
  }

  /** The sensitive keys are those that end in a credential word, and no others. */
  lemma SensitiveMeans(key: Text)
    ensures IsSensitiveKey(key) <==> NamesCredential(key)
  {
    var words := SENSITIVE_ENDINGS;
    forall i | 0 <= i < |words| ensures EndsWith(NormalizedKey(key), words[i]) <==> EndSpells(key, words[i]) {
      EndingsAreSmall(i);
      EndingSpelled(key, words[i]);
    }
    assert |words| == 8 && words[0] == Ascii("password") && words[1] == Ascii("passphrase") && words[2] == Ascii("secret");
    assert words[3] == Ascii("token") && words[4] == Ascii("credential") && words[5] == Ascii("authorization");
    assert words[6] == Ascii("apikey") && words[7] == Ascii("cookie");
  }

  lemma IdentityMeans(key: Text)
    ensures IsIdentityKey(key) <==> NamesIdentity(key)
  {
    forall w | w in IDENTITY_KEYS ensures Spells(key, w) <==> NormalizedKey(key) == w {
      NamesAreSmall(w);
      SpellingIsNormal(key, w);
    }
  }

  /** The other case of an ASCII letter. */
  ghost predicate OtherCase(u: Unit, v: Unit) {
    (0x41 <= u <= 0x5A && v == u + 0x20) || (0x61 <= u <= 0x7A && v == u - 0x20)
  }

  /** Neither kind of key depends on the case of an ASCII letter, anywhere in it. */
  lemma CaseIsIgnored(before: Text, u: Unit, v: Unit, after: Text)
    requires OtherCase(u, v)
    ensures IsSensitiveKey(before + [u] + after) <==> IsSensitiveKey(before + [v] + after)
    ensures IsIdentityKey(before + [u] + after) <==> IsIdentityKey(before + [v] + after)
  {
    SameUnit(before, u, v, after);
  }

  lemma SameUnit(before: Text, u: Unit, v: Unit, after: Text)
    requires OtherCase(u, v)
    ensures NormalizedKey(before + [u] + after) == NormalizedKey(before + [v] + after)
  {
    NormalizedInside(before, u, after);
    NormalizedInside(before, v, after);
    assert KeptUnit(u) == KeptUnit(v);
  }

  /** Nor on units that are no ASCII letter or digit, put in or left out anywhere. */
  lemma SeparatorsAreIgnored(before: Text, u: Unit, after: Text)
    requires !IsAlphanumeric(u)
    ensures IsSensitiveKey(before + [u] + after) <==> IsSensitiveKey(before + after)
    ensures IsIdentityKey(before + [u] + after) <==> IsIdentityKey(before + after)
  {
    NormalizedInside(before, u, after);
    NormalizedConcat(before, after);
    assert NormalizedKey(before) + [] == NormalizedKey(before);
  }

  lemma NormalizedInside(before: Text, u: Unit, after: Text)
    ensures NormalizedKey(before + [u] + after) == NormalizedKey(before) + KeptUnit(u) + NormalizedKey(after)
  {
    NormalizedConcat(before + [u], after);
    NormalizedConcat(before, [u]);
    assert NormalizedKey([u]) == KeptUnit(u);
  }
}
