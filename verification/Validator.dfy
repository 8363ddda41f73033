/** The file name normaliser and the file name checker of pkg/validator/file.go, and how they fit. */
module Validator {
  import opened Utf8

  const MAX_FILENAME_LEN := 255

  const DEFAULT_NAME := "unnamed_file"

  // ---------- library functions ----------

  /** The start of the extension in the first n bytes: the last dot after the last slash. */
  function ExtStart(s: string, n: nat): (i: nat)
    requires n <= |s|
    ensures i <= |s|
    ensures i < |s| ==> i < n && s[i] == '.'
    ensures forall k :: i < k < n ==> s[k] != '.' && s[k] != '/'
  {
    if n == 0 || s[n - 1] == '/' then |s|
    else if s[n - 1] == '.' then n - 1
    else ExtStart(s, n - 1)
  }

  /** filepath.Ext */
  function Ext(s: string): string {
    s[ExtStart(s, |s|)..]
  }

  /** strings.TrimSuffix(s, filepath.Ext(s)) */
  function Stem(s: string): string {
    s[..ExtStart(s, |s|)]
  }

  predicate Trimmable(c: char) {
    c == ' ' || c == '.'
  }

  function TrimLeft(s: string): (t: string)
    ensures |t| <= |s|
  {
    if s != "" && Trimmable(s[0]) then TrimLeft(s[1..]) else s
  }

  function TrimRight(s: string): (t: string)
    ensures |t| <= |s|
  {
    if s != "" && Trimmable(s[|s| - 1]) then TrimRight(s[..|s| - 1]) else s
  }

  /** strings.Trim(s, " .") */
  function Trim(s: string): string {
    TrimRight(TrimLeft(s))
  }

  /** The character class of the regular expression in SanitizeFilename. */
  predicate Replaced(c: char) {
    c in {'<', '>', ':', '\"', '|', '?', '*'} || c as int < 0x20
  }

  function ReplaceAll(s: string): (t: string)
    ensures |t| == |s|
    ensures forall i :: 0 <= i < |s| ==> t[i] == if Replaced(s[i]) then '_' else s[i]
  {
    if s == "" then "" else [if Replaced(s[0]) then '_' else s[0]] + ReplaceAll(s[1..])
  }

  function Upper(s: string): (t: string)
    ensures |t| == |s|
  {
    if s == "" then "" else [if 'a' <= s[0] <= 'z' then s[0] - 'a' + 'A' else s[0]] + Upper(s[1..])
  }

  predicate ContainsDots(s: string) {
    exists i :: 0 <= i < |s| - 1 && s[i] == '.' && s[i + 1] == '.'
  }

  // ---------- SanitizeFilename ----------

  /** The name after the replacement and the trim. */
  function Normal(s: string): string {
    Trim(ReplaceAll(s))
  }

  function Limit(t: string): string {
    if |t| > MAX_FILENAME_LEN && MAX_FILENAME_LEN - |Ext(t)| > 0 then
      t[..MAX_FILENAME_LEN - |Ext(t)|] + Ext(t)
    else
      t
  }

  function Sanitized(s: string): string {
    if Limit(Normal(s)) == "" then DEFAULT_NAME else Limit(Normal(s))
  }

  method SanitizeFilename(filename: string) returns (sanitized: string)
    ensures sanitized == Sanitized(filename)
  {
    sanitized := ReplaceAll(filename);
    sanitized := Trim(sanitized);
    if |sanitized| > MAX_FILENAME_LEN {
      var ext := Ext(sanitized);
      var nameOnly := Stem(sanitized);
      var maxNameLen := MAX_FILENAME_LEN - |ext|;
      if maxNameLen > 0 {
        assert nameOnly[..maxNameLen] == sanitized[..maxNameLen];
        sanitized := nameOnly[..maxNameLen] + ext;
      }
    }
    if sanitized == "" {
      sanitized := DEFAULT_NAME;
    }
  }

  // ---------- ValidateFilename ----------

  datatype Verdict =
    | Accepted
    | TooShort | TooLong | InvalidCharacter | ControlCharacter | ReservedName | Traversal | Hidden

  predicate Dangerous(rune: int) {
    rune in {'<' as int, '>' as int, ':' as int, '\"' as int, '|' as int, '?' as int, '*' as int, 0}
  }

  /** The first rune that the loop objects to decides. */
  function CheckRunes(runes: seq<int>): Verdict {
    if runes == [] then Accepted
    else if Dangerous(runes[0]) then InvalidCharacter
    else if IsControl(runes[0]) then ControlCharacter
    else CheckRunes(runes[1..])
  }

  const RESERVED_NAMES := {
    "CON", "PRN", "AUX", "NUL",
    "COM1", "COM2", "COM3", "COM4", "COM5", "COM6", "COM7", "COM8", "COM9",
    "LPT1", "LPT2", "LPT3", "LPT4", "LPT5", "LPT6", "LPT7", "LPT8", "LPT9"}

  predicate Reserved(filename: string) {
    Upper(Stem(filename)) in RESERVED_NAMES
  }

  predicate Traverses(filename: string) {
    ContainsDots(filename) || '/' in filename || '\\' in filename
  }

  function ValidateFilename(filename: string): Verdict {
    if |filename| < 1 then TooShort
    else if |filename| > MAX_FILENAME_LEN then TooLong
    else if CheckRunes(Runes(filename)) != Accepted then CheckRunes(Runes(filename))
    else if Reserved(filename) then ReservedName
    else if Traverses(filename) then Traversal
    else if filename[0] == '.' then Hidden
    else Accepted
  }

  // ---------- what SanitizeFilename guarantees ----------

  /** Nothing that the regular expression replaces. */
  predicate Plain(s: string) {
    forall i :: 0 <= i < |s| ==> !Replaced(s[i])
  }

  predicate Trimmed(s: string) {
    s != "" ==> !Trimmable(s[0]) && !Trimmable(s[|s| - 1])
  }

  /** Trimming on the left leaves a suffix that starts with no space or dot. */
  lemma {:induction false} TrimLeftShape(s: string)
    ensures var t := TrimLeft(s); s[|s| - |t|..] == t && (t == "" || !Trimmable(t[0]))
    decreases |s|
  {
    if s == "" || !Trimmable(s[0]) {
    } else {
      TrimLeftShape(s[1..]);
    }
  }

  lemma {:induction false} TrimRightShape(s: string)
    ensures var t := TrimRight(s); s[..|t|] == t && (t == "" || !Trimmable(t[|t| - 1]))
    decreases |s|
  {
    if s == "" || !Trimmable(s[|s| - 1]) {
    } else {
      TrimRightShape(s[..|s| - 1]);
    }
  }

  lemma TrimKeepsPlain(s: string)
    requires Plain(s)
    ensures Plain(Trim(s))
  {
    TrimLeftShape(s);
    var l := TrimLeft(s);
    assert forall i :: 0 <= i < |l| ==> l[i] == s[|s| - |l| + i];
    TrimRightShape(l);
    var t := TrimRight(l);
    assert forall i :: 0 <= i < |t| ==> t[i] == l[i];
  }

  lemma TrimIsTrimmed(s: string)
    ensures Trimmed(Trim(s))
  {
    TrimLeftShape(s);
    TrimRightShape(TrimLeft(s));
  }

  /** Nothing to trim, nothing trimmed; otherwise the name gets shorter. */
  lemma TrimChanges(s: string)
    ensures Trimmed(s) ==> Trim(s) == s
    ensures !Trimmed(s) ==> |Trim(s)| < |s|
  {
  }

  lemma NormalIsPlainAndTrimmed(s: string)
    ensures Plain(Normal(s)) && Trimmed(Normal(s))
  {
    TrimKeepsPlain(ReplaceAll(s));
    TrimIsTrimmed(ReplaceAll(s));
  }

  lemma LimitOfTrimmed(t: string)
    requires Plain(t) && Trimmed(t)
    ensures Plain(Limit(t))
    ensures Limit(t) == "" <==> t == ""
    ensures t != "" ==> Limit(t)[0] == t[0]
    ensures |t| <= MAX_FILENAME_LEN ==> Limit(t) == t
    ensures |Limit(t)| > MAX_FILENAME_LEN <==> |t| > MAX_FILENAME_LEN && |Ext(t)| >= MAX_FILENAME_LEN
    ensures |t| > MAX_FILENAME_LEN && |Ext(t)| < MAX_FILENAME_LEN ==> |Limit(t)| == MAX_FILENAME_LEN
    ensures Trimmed(Limit(t)) <==>
      !(|t| > MAX_FILENAME_LEN && Ext(t) == "" && Trimmable(t[MAX_FILENAME_LEN - 1]))
  {
  }

  /** SanitizeFilename leaves a plain, unhidden, non-empty name. */
  lemma SanitizedShape(s: string)
    ensures Plain(Sanitized(s)) && Sanitized(s) != "" && Sanitized(s)[0] != '.'
    ensures |Sanitized(s)| > MAX_FILENAME_LEN
       <==> |Normal(s)| > MAX_FILENAME_LEN && |Ext(Normal(s))| >= MAX_FILENAME_LEN
  {
    NormalIsPlainAndTrimmed(s);
    LimitOfTrimmed(Normal(s));
  }

  // ---------- the fit ----------

  lemma {:induction false} CheckRunesFinds(runes: seq<int>)
    ensures CheckRunes(runes) == Accepted <==> forall r :: r in runes ==> !Dangerous(r) && !IsControl(r)
    decreases |runes|
  {
    if runes == [] {
    } else {
      CheckRunesFinds(runes[1..]);
      assert runes == [runes[0]] + runes[1..];
    }
  }

  /** On plain names the rune loop objects only to DEL and to encoded C1 controls. */
  lemma PlainRunes(s: string)
    requires Plain(s)
    ensures CheckRunes(Runes(s)) == Accepted <==> !HasByte(s, 0x7F) && !HasC1(s)
  {
    CheckRunesFinds(Runes(s));
    ControlRunesAreBytes(s);
    forall r | r in Runes(s)
      ensures !Dangerous(r)
    {
      if Dangerous(r) {
        AsciiRunesAreBytes(s, r);
        var i :| 0 <= i < |s| && s[i] as int == r;
        assert Replaced(s[i]);
      }
    }
    forall b | 0 <= b < 0x20
      ensures !HasByte(s, b)
    {
    }
    if HasByte(s, 0x7F) {
      AsciiRunesAreBytes(s, 0x7F);
    }
  }

  /** No DEL and no C1 control. */
  ghost predicate Clear(s: string) {
    !HasByte(s, 0x7F) && !HasC1(s)
  }

  /** What a truncation leaves before the extension. */
  function Head(t: string): string
    requires |Ext(t)| < MAX_FILENAME_LEN < |t|
  {
    t[..MAX_FILENAME_LEN - |Ext(t)|]
  }

  /** A name that has to be cut fits if its extension leaves room, and the two parts that are kept
      hold no DEL, no C1 control, no slash or backslash and no two dots, and fit together: the cut
      does not fall after a dot, and what it leaves is no reserved name. */
  ghost predicate CutNameFits(t: string)
    requires |t| > MAX_FILENAME_LEN
  {
    && |Ext(t)| < MAX_FILENAME_LEN
    && var head := Head(t);
    && Clear(head) && Clear(Ext(t)) && !Traverses(head) && '\\' !in Ext(t)
    && (if Ext(t) == "" then !Reserved(head)
        else head[|head| - 1] != '.' && Upper(head) !in RESERVED_NAMES)
  }

  ghost predicate NameFits(t: string) {
    || t == ""
    || (|t| <= MAX_FILENAME_LEN && Clear(t) && !Reserved(t) && !Traverses(t))
    || (|t| > MAX_FILENAME_LEN && CutNameFits(t))
  }

  lemma ReservedIsShort(name: string)
    ensures name in RESERVED_NAMES ==> |name| == 3 || |name| == 4
  {
  }

  /** The checks that are left for a plain name that is neither empty nor hidden. */
  lemma PlainNameFits(r: string)
    requires Plain(r) && 0 < |r| <= MAX_FILENAME_LEN && r[0] != '.'
    ensures ValidateFilename(r) == Accepted <==> Clear(r) && !Reserved(r) && !Traverses(r)
  {
    PlainRunes(r);
  }

  predicate IsWord(s: string) {
    forall i :: 0 <= i < |s| ==> 'a' <= s[i] <= 'z' || s[i] == '_' || s[i] == '.'
  }

  lemma WordIsPlainAndClear(s: string)
    requires IsWord(s)
    ensures Plain(s) && Clear(s) && '/' !in s && '\\' !in s
  {
    assert forall i :: 0 <= i < |s| ==> 0x20 < s[i] as int < 0x7F;
  }

  /** A word without dots, too long to be reserved. */
  lemma WordFits(s: string)
    requires IsWord(s) && '.' !in s && 4 < |s| <= MAX_FILENAME_LEN
    ensures ValidateFilename(s) == Accepted
  {
    WordIsPlainAndClear(s);
    assert forall i :: 0 <= i < |s| ==> s[i] != '.';
    PlainNameFits(s);
    NoExtension(s, |s|);
    ReservedIsShort(Upper(Stem(s)));
  }

  lemma DefaultNameFits()
    ensures ValidateFilename(DEFAULT_NAME) == Accepted
  {
    assert IsWord(DEFAULT_NAME) && '.' !in DEFAULT_NAME;
    WordFits(DEFAULT_NAME);
  }

  // ---------- names that are cut ----------

  lemma {:induction false} ExtStartIs(s: string, n: nat, i: nat)
    requires i < n <= |s| && s[i] == '.' && forall k :: i < k < n ==> s[k] != '.' && s[k] != '/'
    ensures ExtStart(s, n) == i
    decreases n
  {
    if n == i + 1 {
    } else {
      ExtStartIs(s, n - 1, i);
    }
  }

  /** An extension is empty, or one dot followed by neither dots nor slashes. */
  predicate IsExtension(e: string) {
    e != "" ==> e[0] == '.' && forall k :: 0 < k < |e| ==> e[k] != '.' && e[k] != '/'
  }

  lemma ExtensionShape(t: string)
    ensures IsExtension(Ext(t))
  {
  }

  lemma StemOfCut(head: string, e: string)
    requires IsExtension(e) && e != ""
    ensures Stem(head + e) == head
  {
    var r := head + e;
    assert r[|head|] == '.';
    forall k | |head| < k < |r|
      ensures r[k] != '.' && r[k] != '/'
    {
      assert r[k] == e[k - |head|];
    }
    ExtStartIs(r, |r|, |head|);
  }

  lemma BytesOfCut(head: string, e: string, b: int)
    ensures HasByte(head + e, b) <==> HasByte(head, b) || HasByte(e, b)
  {
    var r := head + e;
    if HasByte(head, b) {
      var i :| 0 <= i < |head| && head[i] as int == b;
      assert r[i] as int == b;
    }
    if HasByte(e, b) {
      var i :| 0 <= i < |e| && e[i] as int == b;
      assert r[|head| + i] as int == b;
    }
  }

  lemma C1OfCut(head: string, e: string)
    requires IsExtension(e)
    ensures HasC1(head + e) <==> HasC1(head) || HasC1(e)
  {
    var r := head + e;
    if HasC1(r) {
      var i :| 0 <= i < |r| && C1At(r, i);
      if i + 1 < |head| {
        assert C1At(head, i);
      } else if i >= |head| {
        assert C1At(e, i - |head|);
      }
    }
    if HasC1(head) {
      var i :| 0 <= i < |head| && C1At(head, i);
      assert C1At(r, i);
    }
    if HasC1(e) {
      var i :| 0 <= i < |e| && C1At(e, i);
      assert C1At(r, |head| + i);
    }
  }

  lemma DotsOfCut(head: string, e: string)
    requires IsExtension(e) && head != ""
    ensures ContainsDots(head + e) <==> ContainsDots(head) || (e != "" && head[|head| - 1] == '.')
  {
    var r := head + e;
    if ContainsDots(r) {
      var i :| 0 <= i < |r| - 1 && r[i] == '.' && r[i + 1] == '.';
      if i + 1 < |head| {
        assert head[i] == '.' && head[i + 1] == '.';
      } else if i >= |head| {
        assert false;
      }
    }
    if ContainsDots(head) {
      var i :| 0 <= i < |head| - 1 && head[i] == '.' && head[i + 1] == '.';
      assert r[i] == '.' && r[i + 1] == '.';
    }
    if e != "" && head[|head| - 1] == '.' {
      assert r[|head| - 1] == '.' && r[|head|] == '.';
    }
  }

  lemma TraversesOfCut(head: string, e: string)
    requires IsExtension(e) && head != ""
    ensures Traverses(head + e) <==> Traverses(head) || '\\' in e || (e != "" && head[|head| - 1] == '.')
  {
    DotsOfCut(head, e);
    assert '/' !in e;
  }

  lemma CutFits(t: string)
    requires Plain(t) && Trimmed(t) && |t| > MAX_FILENAME_LEN
    ensures ValidateFilename(Limit(t)) == Accepted <==> CutNameFits(t)
  {
    LimitOfTrimmed(t);
    if |Ext(t)| < MAX_FILENAME_LEN {
      var head, e := Head(t), Ext(t);
      ExtensionShape(t);
      assert Limit(t) == head + e;
      PlainNameFits(head + e);
      BytesOfCut(head, e, 0x7F);
      C1OfCut(head, e);
      TraversesOfCut(head, e);
      if e == "" {
        assert head + e == head;
      } else {
        StemOfCut(head, e);
      }
    }
  }

  /** What SanitizeFilename lets through and ValidateFilename still rejects, exactly, by the name
      after the replacement and the trim. It never leaves an empty or a hidden name. */
  lemma SanitizedNamesFit(s: string)
    ensures ValidateFilename(Sanitized(s)) == Accepted <==> NameFits(Normal(s))
  {
    var t := Normal(s);
    NormalIsPlainAndTrimmed(s);
    LimitOfTrimmed(t);
    if t == "" {
      DefaultNameFits();
    } else if |t| > MAX_FILENAME_LEN {
      CutFits(t);
    } else {
      PlainNameFits(t);
    }
  }

  // ---------- names that the truncation spoils ----------

  predicate Letters(s: string) {
    forall i :: 0 <= i < |s| ==> 'a' <= s[i] <= 'z'
  }

  lemma DottedIsWord(front: string, last: string)
    requires front != "" && front[0] != '.' && Letters(last) && last != "" && IsWord(front)
    ensures var s := front + "." + last; IsWord(s) && s[0] != '.' && 'a' <= s[|s| - 1] <= 'z'
  {
    var s := front + "." + last;
    assert s[|s| - 1] == last[|last| - 1];
  }

  /** A word with an extension of letters. */
  lemma DottedLetters(front: string, last: string)
    requires front != "" && front[0] != '.' && Letters(last) && last != "" && IsWord(front)
    ensures var s := front + "." + last;
            && Normal(s) == s && Ext(s) == "." + last && Stem(s) == front && Clear(s)
            && (Traverses(s) <==> ContainsDots(front) || front[|front| - 1] == '.')
  {
    var s, e := front + "." + last, "." + last;
    assert s == front + e;
    DottedIsWord(front, last);
    WordIsPlainAndClear(s);
    NormalOfPlain(s);
    LettersEndName(last);
    StemOfCut(front, e);
    assert Ext(s) == s[|front|..] == e;
    DotsOfCut(front, e);
  }

  lemma LettersEndName(last: string)
    requires Letters(last)
    ensures IsExtension("." + last)
  {
  }

  /** Such a name, when it is too long. */
  lemma DottedIsCut(front: string, last: string, head: string)
    requires front != "" && front[0] != '.' && Letters(last) && last != "" && IsWord(front)
    requires |last| + 1 < MAX_FILENAME_LEN < |front| + 1 + |last|
    requires head == (front + "." + last)[..MAX_FILENAME_LEN - 1 - |last|]
    ensures var s := front + "." + last;
            Ext(s) == "." + last && |s| > MAX_FILENAME_LEN && Head(s) == head && Sanitized(s) == head + ("." + last)
  {
    DottedLetters(front, last);
  }

  lemma OneDot(a: string, b: string)
    requires Letters(a) && Letters(b) && a != "" && b != ""
    ensures var front := a + "." + b; IsWord(front) && !ContainsDots(front) && front[|front| - 1] != '.'
  {
    var front := a + "." + b;
    assert forall i :: 0 <= i < |front| && i != |a| ==> 'a' <= front[i] <= 'z';
  }

  /** The truncation makes two dots: 250 letters, a dot, 10 letters and ".txt" is a name without
      them, is cut after the dot, and is then rejected. */
  lemma TruncationMakesDots(a: string, b: string)
    requires Letters(a) && |a| == 250 && Letters(b) && |b| == 10
    ensures var s := a + "." + b + "." + "txt";
            && Clear(s) && !Reserved(s) && !Traverses(s)
            && ContainsDots(Sanitized(s)) && ValidateFilename(Sanitized(s)) != Accepted
  {
    var front, head := a + "." + b, a + ".";
    OneDot(a, b);
    DottedLetters(front, "txt");
    ReservedIsShort(Upper(front));
    assert (front + "." + "txt")[..251] == head;
    DottedIsCut(front, "txt", head);
    SanitizedNamesFit(front + "." + "txt");
    LettersEndName("txt");
    DotsOfCut(head, "." + "txt");
  }

  lemma LettersAreWord(a: string)
    requires Letters(a)
    ensures IsWord("con" + a) && !ContainsDots("con" + a) && ("con" + a)[|"con" + a| - 1] != '.'
  {
    assert forall i :: 0 <= i < |"con" + a| ==> 'a' <= ("con" + a)[i] <= 'z';
  }

  /** The truncation makes a reserved name: "con" and 10 letters before an extension of 252 bytes
      are cut down to "con". */
  lemma TruncationMakesReserved(a: string, b: string)
    requires Letters(a) && |a| == 10 && Letters(b) && |b| == 251
    ensures var s := "con" + a + "." + b;
            && Clear(s) && !Reserved(s) && !Traverses(s)
            && Reserved(Sanitized(s)) && ValidateFilename(Sanitized(s)) != Accepted
  {
    var front := "con" + a;
    LettersAreWord(a);
    DottedLetters(front, b);
    ReservedIsShort(Upper(front));
    assert (front + "." + b)[..3] == "con";
    DottedIsCut(front, b, "con");
    assert Upper("con") == "CON";
    SanitizedNamesFit(front + "." + b);
    LettersEndName(b);
    StemOfCut("con", "." + b);
  }

  // ---------- idempotence ----------

  lemma {:induction false} PlainIsKept(s: string)
    requires Plain(s)
    ensures ReplaceAll(s) == s
  {
  }

  lemma NormalOfPlain(s: string)
    requires Plain(s)
    ensures Normal(s) == Trim(s)
    ensures Trimmed(s) ==> Normal(s) == s
    ensures !Trimmed(s) ==> |Normal(s)| < |s|
  {
    PlainIsKept(s);
    TrimChanges(s);
  }

  /** The truncation cut a name without extension right after a space or a dot. */
  predicate CutAtTrimmable(t: string) {
    |t| > MAX_FILENAME_LEN && Ext(t) == "" && Trimmable(t[MAX_FILENAME_LEN - 1])
  }

  lemma LimitTwice(t: string)
    requires Plain(t) && Trimmed(t)
    ensures Limit(Limit(t)) == Limit(t)
  {
  }

  lemma SanitizeAgain(t: string)
    requires Plain(t) && Trimmed(t) && t != "" && !CutAtTrimmable(t)
    ensures Sanitized(Limit(t)) == Limit(t)
  {
    LimitOfTrimmed(t);
    NormalOfPlain(Limit(t));
    LimitTwice(t);
  }

  lemma SanitizeAgainShortens(t: string)
    requires Plain(t) && Trimmed(t) && CutAtTrimmable(t)
    ensures Sanitized(Limit(t)) != Limit(t)
  {
    LimitOfTrimmed(t);
    ShorterAfterTrim(Limit(t));
  }

  lemma SanitizeShort(t: string)
    requires Plain(t) && Trimmed(t) && 0 < |t| <= MAX_FILENAME_LEN
    ensures Sanitized(t) == t
  {
  }

  /** Sanitising twice is sanitising once, except for a long name without extension that was cut
      right after a space or a dot. */
  lemma SanitizeIdempotentExactly(s: string)
    ensures Sanitized(Sanitized(s)) == Sanitized(s) <==> !CutAtTrimmable(Normal(s))
  {
    var t := Normal(s);
    NormalIsPlainAndTrimmed(s);
    LimitIsEmpty(t);
    if t == "" {
      SanitizeShort(DEFAULT_NAME);
    } else if CutAtTrimmable(t) {
      SanitizeAgainShortens(t);
    } else {
      SanitizeAgain(t);
    }
  }

  lemma LimitIsEmpty(t: string)
    requires Plain(t) && Trimmed(t)
    ensures Limit(t) == "" <==> t == ""
  {
  }

  /** Sanitising a name that needs trimming makes it shorter or renames it, so it changes. */
  lemma ShorterAfterTrim(s: string)
    requires Plain(s) && |s| == MAX_FILENAME_LEN && !Trimmed(s)
    ensures Sanitized(s) != s
  {
  }

  /** With an extension left after the trim, sanitising is idempotent. */
  lemma IdempotentWithExtension(s: string)
    requires Ext(Normal(s)) != ""
    ensures Sanitized(Sanitized(s)) == Sanitized(s)
  {
    SanitizeIdempotentExactly(s);
  }

  /** 254 letters, a space and one more letter: the exception is real. */
  lemma NotAlwaysIdempotent(letters: string)
    requires |letters| == 254 && forall i :: 0 <= i < 254 ==> 'a' <= letters[i] <= 'z'
    ensures Sanitized(letters + " b") == letters + " "
    ensures Sanitized(Sanitized(letters + " b")) != Sanitized(letters + " b")
  {
    var s := letters + " b";
    LettersArePlain(letters, s);
    NoExtension(s, |s|);
    CutShort(s);
    CutOfLetters(letters, s);
    SanitizeIdempotentExactly(s);
  }

  lemma LettersArePlain(letters: string, s: string)
    requires |letters| == 254 && (forall i :: 0 <= i < 254 ==> 'a' <= letters[i] <= 'z') && s == letters + " b"
    ensures |s| == 256 && Plain(s) && Trimmed(s) && forall i :: 0 <= i < |s| ==> s[i] != '.'
  {
  }

  lemma CutOfLetters(letters: string, s: string)
    requires |letters| == 254 && s == letters + " b"
    ensures s[..MAX_FILENAME_LEN] == letters + " " && s[MAX_FILENAME_LEN - 1] == ' '
  {
  }

  lemma LimitWithoutExtension(t: string)
    requires |t| > MAX_FILENAME_LEN && Ext(t) == ""
    ensures Limit(t) == t[..MAX_FILENAME_LEN]
  {
  }

  lemma NoExtensionIsEmpty(s: string)
    requires ExtStart(s, |s|) == |s|
    ensures Ext(s) == ""
  {
  }

  lemma CutShort(s: string)
    requires Plain(s) && Trimmed(s) && |s| > MAX_FILENAME_LEN && ExtStart(s, |s|) == |s|
    ensures Normal(s) == s && Ext(s) == ""
    ensures Sanitized(s) == s[..MAX_FILENAME_LEN]
  {
    NormalOfPlain(s);
    NoExtensionIsEmpty(s);
    LimitWithoutExtension(s);
    SanitizedByLimit(s, s[..MAX_FILENAME_LEN]);
  }

  lemma SanitizedByLimit(s: string, cut: string)
    requires Limit(Normal(s)) == cut && cut != ""
    ensures Sanitized(s) == cut
  {
  }

  lemma {:induction false} NoExtension(s: string, n: nat)
    requires n <= |s| && forall i :: 0 <= i < n ==> s[i] != '.'
    ensures ExtStart(s, n) == |s|
    decreases n
  {
  }
}
