// StrSanitize: what a name, key or value may look like on the wire
// (src/fullerite/util/strutil.go:17-63).
module Sanitize {
  import opened Metrics

  // Go's tables of Unicode classes.
  datatype Unicode = Unicode(digit: char -> bool, punct: char -> bool, space: char -> bool)

  predicate AsciiLetter(c: char) {
    'A' <= c <= 'Z' || 'a' <= c <= 'z'
  }

  // What the tables are taken to say: the classes do not overlap, and they are
  // the usual ones on ASCII, where $ + < > ^ ` | ~ and = are symbols.
  ghost predicate Standard(u: Unicode) {
    && (forall c :: !(u.digit(c) && u.punct(c)) && !(u.digit(c) && u.space(c)) && !(u.punct(c) && u.space(c)))
    && (forall c :: AsciiLetter(c) ==> !u.digit(c) && !u.punct(c) && !u.space(c))
    && (forall c :: c as int < 128 ==> (u.digit(c) <==> '0' <= c <= '9'))
    && (forall c :: c as int < 128 ==> (u.punct(c) <==> c in "!\"#%&'()*,-./:;?@[\\]_{}"))
    && (forall c :: c as int < 128 ==> (u.space(c) <==> c in " \t\n\r" || 9 <= c as int <= 13))
  }

  // Which punctuation a handler lets through.
  datatype Rules = Rules(all: bool, allowed: seq<char>)

  predicate RuneInSlice(c: char, allowed: seq<char>) {
    exists i :: 0 <= i < |allowed| && allowed[i] == c
  }

  function Translate(u: Unicode, rules: Rules, c: char): Option<char> {
    if c == ':' || c == '=' then Some('-')
    else if u.digit(c) || AsciiLetter(c) then Some(c)
    else if u.punct(c) then (if !rules.all && !RuneInSlice(c, rules.allowed) then Some('_') else Some(c))
    else if u.space(c) then Some(' ')
    else None
  }

  // strings.Map: None drops the character.
  function MapAll(u: Unicode, rules: Rules, s: string): string {
    if s == "" then ""
    else
      var t := Translate(u, rules, s[0]);
      (if t.None? then "" else [t.value]) + MapAll(u, rules, s[1..])
  }

  function TrimLeft(u: Unicode, s: string): string {
    if s != "" && u.space(s[0]) then TrimLeft(u, s[1..]) else s
  }

  function TrimRight(u: Unicode, s: string): string {
    if s != "" && u.space(s[|s| - 1]) then TrimRight(u, s[..|s| - 1]) else s
  }

  function TrimSpace(u: Unicode, s: string): string {
    TrimRight(u, TrimLeft(u, s))
  }

  function Underscored(s: string): (r: string)
    ensures |r| == |s| && forall i :: 0 <= i < |s| ==> r[i] == if s[i] == ' ' then '_' else s[i]
  {
    if s == "" then "" else [if s[0] == ' ' then '_' else s[0]] + Underscored(s[1..])
  }

  function StrSanitize(u: Unicode, rules: Rules, s: string): string {
    var trimmed := TrimSpace(u, MapAll(u, rules, s));
    if trimmed == "" then "null" else Underscored(trimmed)
  }

  // ---- What comes out ----

  // Characters that pass unchanged, and the underscore everything else becomes.
  predicate Clean(u: Unicode, rules: Rules, c: char) {
    u.digit(c) || AsciiLetter(c) || c == '_' || c == '-' ||
    (u.punct(c) && c != ':' && (rules.all || RuneInSlice(c, rules.allowed)))
  }

  ghost predicate AllClean(u: Unicode, rules: Rules, s: string) {
    forall i :: 0 <= i < |s| ==> Clean(u, rules, s[i])
  }

  ghost predicate CleanOrBlank(u: Unicode, rules: Rules, s: string) {
    forall i :: 0 <= i < |s| ==> s[i] == ' ' || Clean(u, rules, s[i])
  }

  lemma {:induction false} MapAllIsClean(u: Unicode, rules: Rules, s: string)
    requires Standard(u)
    ensures CleanOrBlank(u, rules, MapAll(u, rules, s))
  {
    if s != "" {
      MapAllIsClean(u, rules, s[1..]);
    }
  }

  lemma {:induction false} TrimLeftIsASuffix(u: Unicode, s: string)
    ensures |TrimLeft(u, s)| <= |s| && TrimLeft(u, s) == s[|s| - |TrimLeft(u, s)|..]
  {
    if s != "" && u.space(s[0]) {
      TrimLeftIsASuffix(u, s[1..]);
    }
  }

  lemma {:induction false} TrimRightIsAPrefix(u: Unicode, s: string)
    ensures |TrimRight(u, s)| <= |s| && TrimRight(u, s) == s[..|TrimRight(u, s)|]
  {
    if s != "" && u.space(s[|s| - 1]) {
      TrimRightIsAPrefix(u, s[..|s| - 1]);
    }
  }

  // Never empty, and only clean characters: in particular no blanks at all.
  lemma SanitizedIsClean(u: Unicode, rules: Rules, s: string)
    requires Standard(u)
    ensures StrSanitize(u, rules, s) != "" && AllClean(u, rules, StrSanitize(u, rules, s))
  {
    var mapped := MapAll(u, rules, s);
    MapAllIsClean(u, rules, s);
    TrimLeftIsASuffix(u, mapped);
    TrimRightIsAPrefix(u, TrimLeft(u, mapped));
  }

  // ---- Sanitizing twice ----

  lemma CleanCharIsKept(u: Unicode, rules: Rules, c: char)
    requires Standard(u) && Clean(u, rules, c) && (rules.all || '-' in rules.allowed)
    ensures Translate(u, rules, c) == Some(c) && c != ' ' && !u.space(c)
  {
    if c == '-' && !rules.all {
      var i :| 0 <= i < |rules.allowed| && rules.allowed[i] == '-';
    }
  }

  lemma {:induction false} CleanIsKept(u: Unicode, rules: Rules, s: string)
    requires Standard(u) && AllClean(u, rules, s) && (rules.all || '-' in rules.allowed)
    ensures MapAll(u, rules, s) == s
  {
    if s != "" {
      CleanCharIsKept(u, rules, s[0]);
      CleanIsKept(u, rules, s[1..]);
      assert s == [s[0]] + s[1..];
    }
  }

  lemma CleanIsFixed(u: Unicode, rules: Rules, s: string)
    requires Standard(u) && s != "" && AllClean(u, rules, s) && (rules.all || '-' in rules.allowed)
    ensures StrSanitize(u, rules, s) == s
  {
    CleanIsKept(u, rules, s);
    CleanCharIsKept(u, rules, s[0]);
    CleanCharIsKept(u, rules, s[|s| - 1]);
    forall i | 0 <= i < |s| ensures s[i] != ' ' {
      CleanCharIsKept(u, rules, s[i]);
    }
  }

  lemma ColonBecomesADash(u: Unicode, rules: Rules)
    requires Standard(u)
    ensures StrSanitize(u, rules, ":") == "-"
  {
    assert ":"[1..] == "";
    assert MapAll(u, rules, ":") == "-";
  }

  // Sanitizing a second time changes nothing, exactly for handlers that allow a
  // dash.
  lemma IdempotentExactlyWhenDashIsAllowed(u: Unicode, rules: Rules)
    requires Standard(u)
    ensures (forall s: string :: StrSanitize(u, rules, StrSanitize(u, rules, s)) == StrSanitize(u, rules, s))
            <==> rules.all || '-' in rules.allowed
  {
    if rules.all || '-' in rules.allowed {
      forall s: string ensures StrSanitize(u, rules, StrSanitize(u, rules, s)) == StrSanitize(u, rules, s) {
        SanitizedIsClean(u, rules, s);
        CleanIsFixed(u, rules, StrSanitize(u, rules, s));
      }
    } else {
      ColonBecomesADash(u, rules);
      assert "-"[1..] == "";
      assert MapAll(u, rules, "-") == "_";
      assert StrSanitize(u, rules, StrSanitize(u, rules, ":")) != StrSanitize(u, rules, ":");
    }
  }

  // And then the texts it gives are exactly the non-empty clean ones.
  lemma SanitizedExactlyWhenClean(u: Unicode, rules: Rules, r: string)
    requires Standard(u) && (rules.all || '-' in rules.allowed)
    ensures (exists s: string :: StrSanitize(u, rules, s) == r) <==> r != "" && AllClean(u, rules, r)
  {
    if s: string :| StrSanitize(u, rules, s) == r {
      SanitizedIsClean(u, rules, s);
    }
    if r != "" && AllClean(u, rules, r) {
      CleanIsFixed(u, rules, r);
    }
  }

  // ---- What becomes of each character ----

  lemma {:induction false} MapAllJoin(u: Unicode, rules: Rules, a: string, b: string)
    ensures MapAll(u, rules, a + b) == MapAll(u, rules, a) + MapAll(u, rules, b)
  {
    if a == "" {
      assert a + b == b;
    } else {
      assert (a + b)[1..] == a[1..] + b;
      MapAllJoin(u, rules, a[1..], b);
    }
  }

  // A colon or an equal sign, a digit, one of the 52 letters, punctuation or white space.
  predicate Kept(u: Unicode, c: char) {
    c == ':' || c == '=' || u.digit(c) || 'A' <= c <= 'Z' || 'a' <= c <= 'z' || u.punct(c) || u.space(c)
  }

  // Characters of no class leave no trace.
  lemma UndesiredVanish(u: Unicode, rules: Rules, a: string, c: char, b: string)
    requires !Kept(u, c)
    ensures StrSanitize(u, rules, a + [c] + b) == StrSanitize(u, rules, a + b)
  {
    MapAllJoin(u, rules, a + [c], b);
    MapAllJoin(u, rules, a, [c]);
    MapAllJoin(u, rules, a, b);
    assert [c][1..] == "" && MapAll(u, rules, [c]) == "";
    assert MapAll(u, rules, a + [c]) == MapAll(u, rules, a);
  }

  lemma {:induction false} TrimLeftSnoc(u: Unicode, s: string)
    requires u.space(' ')
    ensures TrimLeft(u, s + " ") == if TrimLeft(u, s) == "" then "" else TrimLeft(u, s) + " "
  {
    if s == "" {
      assert s + " " == " " && " "[1..] == "";
    } else {
      assert (s + " ")[1..] == s[1..] + " ";
      if u.space(s[0]) {
        TrimLeftSnoc(u, s[1..]);
      }
    }
  }

  // White space at either end leaves no trace.
  lemma BlankEndsVanish(u: Unicode, rules: Rules, c: char, s: string)
    requires Standard(u) && u.space(c)
    ensures StrSanitize(u, rules, [c] + s) == StrSanitize(u, rules, s) == StrSanitize(u, rules, s + [c])
  {
    assert ([c] + s)[1..] == s && Translate(u, rules, c) == Some(' ') && u.space(' ');
    var mapped := MapAll(u, rules, s);
    MapAllJoin(u, rules, s, [c]);
    assert MapAll(u, rules, [c]) == " ";
    assert (" " + mapped)[1..] == mapped;
    TrimLeftSnoc(u, mapped);
    var left := TrimLeft(u, mapped);
    assert (left + " ")[..|left|] == left;
  }

  // A kept character: dashes for colons and equal signs, underscores for white
  // space and punctuation that is not allowed, and itself otherwise.
  function Becomes(u: Unicode, rules: Rules, c: char): char {
    if c == ':' || c == '=' then '-'
    else if u.space(c) || (u.punct(c) && !rules.all && c !in rules.allowed) then '_'
    else c
  }

  lemma {:induction false} MapAllKeeps(u: Unicode, rules: Rules, s: string)
    requires Standard(u) && forall i :: 0 <= i < |s| ==> Translate(u, rules, s[i]).Some?
    ensures |MapAll(u, rules, s)| == |s|
    ensures forall i :: 0 <= i < |s| ==> Translate(u, rules, s[i]) == Some(MapAll(u, rules, s)[i])
  {
    if s != "" {
      MapAllKeeps(u, rules, s[1..]);
    }
  }

  lemma TranslateThenUnderscore(u: Unicode, rules: Rules, c: char)
    requires Standard(u) && Translate(u, rules, c).Some?
    ensures var t := Translate(u, rules, c).value;
            Becomes(u, rules, c) == (if t == ' ' then '_' else t) && (u.space(t) <==> u.space(c))
  {
  }

  // Text without white space at its ends, and with nothing to leave out, is
  // sanitized character by character.
  lemma SanitizedCharacterByCharacter(u: Unicode, rules: Rules, s: string, i: nat)
    requires Standard(u) && i < |s| && forall j :: 0 <= j < |s| ==> Kept(u, s[j])
    requires !u.space(s[0]) && !u.space(s[|s| - 1])
    ensures |StrSanitize(u, rules, s)| == |s| && StrSanitize(u, rules, s)[i] == Becomes(u, rules, s[i])
  {
    assert forall j :: 0 <= j < |s| ==> Translate(u, rules, s[j]).Some?;
    MapAllKeeps(u, rules, s);
    TranslateThenUnderscore(u, rules, s[0]);
    TranslateThenUnderscore(u, rules, s[|s| - 1]);
    TranslateThenUnderscore(u, rules, s[i]);
  }

  // Text of which nothing but white space is kept becomes "null".
  lemma NothingKeptBecomesNull(u: Unicode, rules: Rules, s: string)
    requires Standard(u) && forall i :: 0 <= i < |s| ==> !Kept(u, s[i]) || u.space(s[i])
    ensures StrSanitize(u, rules, s) == "null"
    decreases |s|
  {
    if s != "" {
      assert s == [s[0]] + s[1..];
      if u.space(s[0]) {
        BlankEndsVanish(u, rules, s[0], s[1..]);
      } else {
        UndesiredVanish(u, rules, "", s[0], s[1..]);
        assert "" + [s[0]] + s[1..] == s && "" + s[1..] == s[1..];
      }
      NothingKeptBecomesNull(u, rules, s[1..]);
    }
  }
}
