/** SanitizeFilename and ValidateFilename by the bytes of a name alone: what the first one makes of
    every name, and which verdict the second one gives on every name. */
module Names {
  import opened Utf8
  import opened Validator

  // ---------- names, in parts ----------

  predicate Blanks(s: string) {
    forall i :: 0 <= i < |s| ==> s[i] == ' ' || s[i] == '.'
  }

  /** Starts and ends with neither space nor dot. */
  predicate Unpadded(s: string) {
    s != "" ==> s[0] != ' ' && s[0] != '.' && s[|s| - 1] != ' ' && s[|s| - 1] != '.'
  }

  predicate Forbidden(c: char) {
    c as int < 0x20 || c == '<' || c == '>' || c == ':' || c == '\"' || c == '|' || c == '?' || c == '*'
  }

  /** Exactly the forbidden bytes of `m` have become underscores. */
  predicate Underscored(m: string, u: string) {
    |u| == |m| && forall i :: 0 <= i < |m| ==> u[i] == if Forbidden(m[i]) then '_' else m[i]
  }

  /** The name `b + e` has the extension `e`: a last dot with no slash after it and all that
      follows, or nothing if there is no such dot. */
  predicate HasExtension(b: string, e: string) {
    if e == "" then forall i :: 0 <= i < |b| && b[i] == '.' ==> '/' in b[i + 1..]
    else e[0] == '.' && '.' !in e[1..] && '/' !in e[1..]
  }

  // ---------- SanitizeFilename ----------

  lemma ReplaceUnderscores(s: string)
    ensures Underscored(s, ReplaceAll(s))
  {
  }

  lemma UnderscoredIsUnique(m: string, u: string, v: string)
    requires Underscored(m, u) && Underscored(m, v)
    ensures u == v
  {
  }

  lemma UnderscoredParts(a: string, u: string, b: string, v: string)
    requires Underscored(a, u) && Underscored(b, v)
    ensures Underscored(a + b, u + v)
  {
  }

  lemma BlanksStay(l: string)
    requires Blanks(l)
    ensures Underscored(l, l)
  {
  }

  lemma {:induction false} TrimLeftBlanks(l: string, x: string)
    requires Blanks(l) && (x != "" ==> x[0] != ' ' && x[0] != '.')
    ensures TrimLeft(l + x) == x
    decreases |l|
  {
    if l == "" {
      assert l + x == x;
    } else {
      assert (l + x)[1..] == l[1..] + x;
      TrimLeftBlanks(l[1..], x);
    }
  }

  lemma {:induction false} TrimRightBlanks(x: string, r: string)
    requires Blanks(r) && (x != "" ==> x[|x| - 1] != ' ' && x[|x| - 1] != '.')
    ensures TrimRight(x + r) == x
    decreases |r|
  {
    if r == "" {
      assert x + r == x;
    } else {
      assert (x + r)[..|x + r| - 1] == x + r[..|r| - 1];
      TrimRightBlanks(x, r[..|r| - 1]);
    }
  }

  /** Trimming takes off exactly the blanks around a name. */
  lemma TrimBlanks(l: string, u: string, r: string)
    requires Blanks(l) && Blanks(r) && Unpadded(u)
    ensures Trim(l + u + r) == u
  {
    if u == "" {
      assert l + u + r == (l + r) + "" && Blanks(l + r);
      TrimLeftBlanks(l + r, "");
    } else {
      assert l + u + r == l + (u + r);
      TrimLeftBlanks(l, u + r);
      TrimRightBlanks(u, r);
    }
  }

  /** The replacement commutes with the trim. */
  lemma NormalOfParts(l: string, m: string, r: string)
    requires Blanks(l) && Blanks(r) && Unpadded(m)
    ensures Underscored(m, Normal(l + m + r))
  {
    var u := ReplaceAll(m);
    ReplaceUnderscores(m);
    BlanksStay(l);
    BlanksStay(r);
    UnderscoredParts(l, l, m, u);
    UnderscoredParts(l + m, l + u, r, r);
    ReplaceUnderscores(l + m + r);
    UnderscoredIsUnique(l + m + r, l + u + r, ReplaceAll(l + m + r));
    TrimBlanks(l, u, r);
  }

  /** A name that is not too long loses the blanks around it and gets its forbidden bytes, and no
      others, replaced; of blanks alone nothing is left, and the default name takes its place. */
  lemma ShortNameSanitized(l: string, m: string, r: string)
    requires Blanks(l) && Blanks(r) && Unpadded(m) && |m| <= 255
    ensures m != "" ==> Underscored(m, Sanitized(l + m + r))
    ensures m == "" ==> Sanitized(l + m + r) == "unnamed_file"
  {
    NormalOfParts(l, m, r);
  }

  lemma DotsAreUnderscored(b: string, u: string)
    requires Underscored(b, u)
    ensures forall i :: 0 <= i < |b| ==> (u[i] == '.' <==> b[i] == '.') && (u[i] == '/' <==> b[i] == '/')
  {
  }

  lemma NoExtensionStart(t: string)
    requires HasExtension(t, "")
    ensures ExtStart(t, |t|) == |t|
  {
  }

  lemma ExtensionIs(b: string, e: string)
    requires HasExtension(b, e)
    ensures Ext(b + e) == e && Stem(b + e) == b
  {
    var t := b + e;
    if e == "" {
      assert t == b;
      NoExtensionStart(b);
    } else {
      forall k | |b| < k < |t|
        ensures t[k] != '.' && t[k] != '/'
      {
        assert t[k] == e[1..][k - |b| - 1];
      }
      ExtStartIs(t, |t|, |b|);
    }
  }

  lemma UnderscoredExtension(b: string, e: string, u: string, f: string)
    requires HasExtension(b, e) && Underscored(b, u) && Underscored(e, f)
    ensures HasExtension(u, f)
  {
    DotsAreUnderscored(b, u);
    DotsAreUnderscored(e, f);
    if e == "" {
      forall i | 0 <= i < |u| && u[i] == '.'
        ensures '/' in u[i + 1..]
      {
        var k :| 0 <= k < |b[i + 1..]| && b[i + 1..][k] == '/';
        assert u[i + 1..][k] == '/';
      }
    } else {
      assert forall k :: 0 <= k < |f[1..]| ==> f[1..][k] == f[k + 1] && e[1..][k] == e[k + 1];
    }
  }

  lemma UnderscoredSplits(m: string, u: string, n: nat)
    requires Underscored(m, u) && n <= |m|
    ensures Underscored(m[..n], u[..n]) && Underscored(m[n..], u[n..])
  {
  }

  /** A name that is too long keeps its extension and is cut before it to 255 bytes in all; with an
      extension of 255 bytes or more it is not cut. Blanks and forbidden bytes go as in a short one. */
  lemma LongNameSanitized(l: string, b: string, e: string, r: string)
    requires Blanks(l) && Blanks(r) && Unpadded(b + e) && |b + e| > 255 && HasExtension(b, e)
    ensures |e| < 255 ==> Underscored(b[..255 - |e|] + e, Sanitized(l + (b + e) + r))
    ensures |e| >= 255 ==> Underscored(b + e, Sanitized(l + (b + e) + r))
  {
    var t := Normal(l + (b + e) + r);
    NormalOfParts(l, b + e, r);
    UnderscoredSplits(b + e, t, |b|);
    assert (b + e)[..|b|] == b && (b + e)[|b|..] == e;
    var u, f := t[..|b|], t[|b|..];
    UnderscoredExtension(b, e, u, f);
    assert t == u + f;
    ExtensionIs(u, f);
    if |e| < 255 {
      UnderscoredSplits(b, u, 255 - |e|);
      UnderscoredParts(b[..255 - |e|], u[..255 - |e|], e, f);
      assert t[..255 - |f|] == u[..255 - |e|];
    }
  }

  // ---------- every name has such parts ----------

  lemma {:induction false} PadsOf(s: string) returns (l: string, m: string, r: string)
    ensures s == l + m + r && Blanks(l) && Blanks(r) && Unpadded(m)
    decreases |s|
  {
    if s == "" {
      l, m, r := "", "", "";
    } else if s[0] == ' ' || s[0] == '.' {
      l, m, r := PadsOf(s[1..]);
      l := [s[0]] + l;
    } else if s[|s| - 1] == ' ' || s[|s| - 1] == '.' {
      l, m, r := PadsOf(s[..|s| - 1]);
      assert s == s[..|s| - 1] + [s[|s| - 1]];
      r := r + [s[|s| - 1]];
    } else {
      l, m, r := "", s, "";
    }
  }

  lemma {:induction false} ExtensionOf(m: string) returns (b: string, e: string)
    ensures m == b + e && HasExtension(b, e)
    decreases |m|
  {
    if m == "" {
      b, e := "", "";
    } else {
      var c := m[|m| - 1];
      var rest := m[..|m| - 1];
      assert m == rest + [c];
      if c == '.' {
        b, e := rest, [c];
      } else if c == '/' {
        b, e := m, "";
        forall i | 0 <= i < |b| && b[i] == '.'
          ensures '/' in b[i + 1..]
        {
          assert b[i + 1..][|b| - i - 2] == '/';
        }
      } else {
        b, e := ExtensionOf(rest);
        if e == "" {
          assert b == rest;
          StillNoExtension(rest, c);
          b := m;
        } else {
          assert (e + [c])[1..] == e[1..] + [c];
          e := e + [c];
        }
      }
    }
  }

  lemma StillNoExtension(rest: string, c: char)
    requires HasExtension(rest, "") && c != '.'
    ensures HasExtension(rest + [c], "")
  {
    var m := rest + [c];
    forall i | 0 <= i < |m| && m[i] == '.'
      ensures '/' in m[i + 1..]
    {
      assert rest[i] == '.' && '/' in rest[i + 1..];
      assert m[i + 1..] == rest[i + 1..] + [c];
    }
  }

  /** So the two results above speak of every name. */
  lemma EveryNameSanitized(s: string) returns (l: string, m: string, r: string, b: string, e: string)
    ensures s == l + m + r && Blanks(l) && Blanks(r) && Unpadded(m) && m == b + e && HasExtension(b, e)
    ensures var u := Sanitized(s);
            if m == "" then u == "unnamed_file"
            else if |m| > 255 && |e| < 255 then Underscored(b[..255 - |e|] + e, u)
            else Underscored(m, u)
  {
    l, m, r := PadsOf(s);
    b, e := ExtensionOf(m);
    if |m| > 255 {
      LongNameSanitized(l, b, e, r);
    } else {
      ShortNameSanitized(l, m, r);
    }
  }

  // ---------- ValidateFilename ----------

  /** The same letters, whatever their case, as a name in lower case. */
  predicate SameLetters(a: string, lower: string) {
    |a| == |lower| && forall i :: 0 <= i < |a| ==> a[i] == lower[i] || a[i] as int + 32 == lower[i] as int
  }

  /** The devices of DOS: con, prn, aux and nul, and com and lpt with a digit from 1 to 9. */
  predicate Device(stem: string) {
    || SameLetters(stem, "con") || SameLetters(stem, "prn") || SameLetters(stem, "aux") || SameLetters(stem, "nul")
    || (|stem| == 4 && (SameLetters(stem[..3], "com") || SameLetters(stem[..3], "lpt")) && '1' <= stem[3] <= '9')
  }

  lemma UpperLetters(a: string, upper: string, lower: string)
    requires |upper| == |lower|
    requires forall i :: 0 <= i < |upper| ==> 'A' <= upper[i] <= 'Z' && upper[i] as int + 32 == lower[i] as int
    ensures Upper(a) == upper <==> SameLetters(a, lower)
  {
    if SameLetters(a, lower) {
      forall i | 0 <= i < |a|
        ensures Upper(a)[i] == upper[i]
      {
        UpperAt(a, i);
      }
    }
    if Upper(a) == upper {
      forall i | 0 <= i < |a|
        ensures a[i] == lower[i] || a[i] as int + 32 == lower[i] as int
      {
        UpperAt(a, i);
      }
    }
  }

  lemma {:induction false} UpperAt(s: string, i: nat)
    requires i < |s|
    ensures Upper(s)[i] == if 'a' <= s[i] <= 'z' then s[i] - 'a' + 'A' else s[i]
    decreases |s|
  {
    if i > 0 {
      UpperAt(s[1..], i - 1);
    }
  }

  lemma ReservedByShape(u: string)
    ensures u in RESERVED_NAMES <==>
      || u == "CON" || u == "PRN" || u == "AUX" || u == "NUL"
      || (|u| == 4 && (u[..3] == "COM" || u[..3] == "LPT") && '1' <= u[3] <= '9')
  {
    if |u| == 4 {
      assert u == [u[..3][0], u[..3][1], u[..3][2], u[3]];
    }
  }

  lemma UpperPrefix(s: string, n: nat)
    requires n <= |s|
    ensures Upper(s[..n]) == Upper(s)[..n]
  {
    forall i | 0 <= i < n
      ensures Upper(s[..n])[i] == Upper(s)[i]
    {
      UpperAt(s[..n], i);
      UpperAt(s, i);
    }
  }

  lemma UpperStart(stem: string, upper: string, lower: string)
    requires |stem| == 4 && |upper| == |lower| == 3
    requires forall i :: 0 <= i < |upper| ==> 'A' <= upper[i] <= 'Z' && upper[i] as int + 32 == lower[i] as int
    ensures Upper(stem)[..3] == upper <==> SameLetters(stem[..3], lower)
    ensures '1' <= Upper(stem)[3] <= '9' <==> '1' <= stem[3] <= '9'
  {
    UpperPrefix(stem, 3);
    UpperAt(stem, 3);
    UpperLetters(stem[..3], upper, lower);
  }

  lemma DeviceExactly(stem: string)
    ensures Upper(stem) in RESERVED_NAMES <==> Device(stem)
  {
    ReservedByShape(Upper(stem));
    UpperLetters(stem, "CON", "con");
    UpperLetters(stem, "PRN", "prn");
    UpperLetters(stem, "AUX", "aux");
    UpperLetters(stem, "NUL", "nul");
    if |stem| == 4 {
      UpperStart(stem, "COM", "com");
      UpperStart(stem, "LPT", "lpt");
    }
  }

  /** The name has the stem of a device. */
  ghost predicate NamesDevice(s: string) {
    exists b, e :: s == b + e && HasExtension(b, e) && Device(b)
  }

  lemma ReservedExactly(s: string)
    ensures Reserved(s) <==> NamesDevice(s)
  {
    var b, e := ExtensionOf(s);
    ExtensionIs(b, e);
    DeviceExactly(b);
    forall c, f | s == c + f && HasExtension(c, f)
      ensures c == b
    {
      ExtensionIs(c, f);
    }
  }

  /** A byte that no name may hold, or DEL, or an encoded C1 control. */
  ghost predicate HoldsBadByte(s: string) {
    (exists i :: 0 <= i < |s| && (Forbidden(s[i]) || s[i] as int == 0x7F)) || HasC1(s)
  }

  lemma BadBytes(s: string)
    ensures (exists r :: r in Runes(s) && (Dangerous(r) || IsControl(r))) <==> HoldsBadByte(s)
  {
    ControlRunesAreBytes(s);
    forall b | 0 <= b < 0x80
      ensures b in Runes(s) <==> HasByte(s, b)
    {
      AsciiRunesAreBytes(s, b);
    }
    if exists i :: 0 <= i < |s| && (Forbidden(s[i]) || s[i] as int == 0x7F) {
      var i :| 0 <= i < |s| && (Forbidden(s[i]) || s[i] as int == 0x7F);
      assert HasByte(s, s[i] as int);
      assert s[i] as int in Runes(s);
    }
    if exists r :: r in Runes(s) && Dangerous(r) {
      var r :| r in Runes(s) && Dangerous(r);
      assert HasByte(s, r);
      var i :| 0 <= i < |s| && s[i] as int == r;
      assert Forbidden(s[i]);
    }
  }

  ghost predicate HoldsSeparator(s: string) {
    '/' in s || '\\' in s || exists i :: 0 <= i < |s| - 1 && s[i] == '.' && s[i + 1] == '.'
  }

  /** The verdict on every name, in the order in which the checks are made. */
  lemma VerdictExactly(s: string)
    ensures ValidateFilename(s) == TooShort <==> s == ""
    ensures ValidateFilename(s) == TooLong <==> |s| > 255
    ensures ValidateFilename(s) in {InvalidCharacter, ControlCharacter} <==> 1 <= |s| <= 255 && HoldsBadByte(s)
    ensures ValidateFilename(s) == ReservedName <==> 1 <= |s| <= 255 && !HoldsBadByte(s) && NamesDevice(s)
    ensures ValidateFilename(s) == Traversal <==>
      1 <= |s| <= 255 && !HoldsBadByte(s) && !NamesDevice(s) && HoldsSeparator(s)
    ensures ValidateFilename(s) == Hidden <==>
      1 <= |s| <= 255 && !HoldsBadByte(s) && !NamesDevice(s) && !HoldsSeparator(s) && s[0] == '.'
    ensures ValidateFilename(s) == Accepted <==>
      1 <= |s| <= 255 && !HoldsBadByte(s) && !NamesDevice(s) && !HoldsSeparator(s) && s[0] != '.'
  {
    BadBytes(s);
    CheckRunesFinds(Runes(s));
    CheckRunesVerdict(Runes(s));
    ReservedExactly(s);
  }

  lemma {:induction false} CheckRunesVerdict(runes: seq<int>)
    ensures CheckRunes(runes) in {Accepted, InvalidCharacter, ControlCharacter}
    decreases |runes|
  {
    if runes == [] {
    } else {
      CheckRunesVerdict(runes[1..]);
    }
  }

  /** The first rune that is objected to decides between the two: NUL and the seven characters of
      the list are invalid characters, every other control rune is a control character. */
  lemma {:induction false} FirstBadRune(runes: seq<int>, n: nat)
    requires n < |runes| && (forall k :: 0 <= k < n ==> !Dangerous(runes[k]) && !IsControl(runes[k]))
    ensures runes[n] == 0 || (runes[n] >= 0x20 && runes[n] < 0x7F && Forbidden(runes[n] as char)) ==>
              CheckRunes(runes) == InvalidCharacter
    ensures 0 < runes[n] < 0x20 || 0x7F <= runes[n] < 0xA0 ==> CheckRunes(runes) == ControlCharacter
    decreases n
  {
    if n == 0 {
    } else {
      FirstBadRune(runes[1..], n - 1);
    }
  }
}
