/** Names for the folder mounts of an app workload.

    A mount target is reduced to a label, and labels that collide are numbered.  A label is
    a host name label as in section 2.1 of RFC 1123 and section 2.3.4 of RFC 1035: letters,
    digits and dashes, at most 63 of them, with no dash at either end. */
module Workload {
  import opened Wrappers

  // ---------------------------------------------------------------- labels

  predicate IsAlnum(c: char) {
    'a' <= c <= 'z' || '0' <= c <= '9'
  }

  predicate IsLabel(s: string) {
    && 1 <= |s| <= 63
    && IsAlnum(s[0]) && IsAlnum(s[|s| - 1])
    && forall i :: 0 <= i < |s| ==> IsAlnum(s[i]) || s[i] == '-'
  }

  function SkipRun(s: string): (r: string)
    ensures |r| <= |s|
    ensures r != "" ==> IsAlnum(r[0])
  {
    if s == "" || IsAlnum(s[0]) then s else SkipRun(s[1..])
  }

  /** Every run of other characters becomes one dash. */
  function Sanitize(s: string): string
    decreases |s|
  {
    if s == "" then ""
    else if IsAlnum(s[0]) then [s[0]] + Sanitize(s[1..])
    else "-" + Sanitize(SkipRun(s[1..]))
  }

  function StripLeft(s: string): string {
    if s != "" && s[0] == '-' then StripLeft(s[1..]) else s
  }

  function StripRight(s: string): string {
    if s != "" && s[|s| - 1] == '-' then StripRight(s[..|s| - 1]) else s
  }

  function Strip(s: string): string {
    StripRight(StripLeft(s))
  }

  function Take(s: string, n: nat): string {
    if |s| <= n then s else s[..n]
  }

  /** The name for a mount target, whatever `lower` does to letters outside ASCII. */
  function MountName(lower: string -> string, target: string): string {
    var name := Strip(Take(Strip(Sanitize(lower(target))), 63));
    if name == "" then "root" else name
  }

  // ---------------------------------------------------------------- what the label keeps

  /** The maximal runs of letters and digits. */
  ghost function Words(s: string): (ws: seq<string>)
    ensures s != "" && IsAlnum(s[0]) ==> ws != []
    ensures forall i :: 0 <= i < |ws| ==> ws[i] != "" && forall j :: 0 <= j < |ws[i]| ==> IsAlnum(ws[i][j])
  {
    if s == "" then []
    else if !IsAlnum(s[0]) then Words(s[1..])
    else if |s| > 1 && IsAlnum(s[1]) then
      var ws := Words(s[1..]);
      [[s[0]] + ws[0]] + ws[1..]
    else [[s[0]]] + Words(s[1..])
  }

  ghost function Join(ws: seq<string>): (s: string)
    ensures ws == [] ==> s == ""
  {
    if ws == [] then ""
    else if |ws| == 1 then ws[0]
    else ws[0] + "-" + Join(ws[1..])
  }

  lemma {:induction false} WordsSkipRun(s: string)
    ensures Words(SkipRun(s)) == Words(s)
  {
    if s != "" && !IsAlnum(s[0]) {
      WordsSkipRun(s[1..]);
    }
  }

  lemma {:induction false} JoinIsDashed(ws: seq<string>)
    requires forall i :: 0 <= i < |ws| ==> ws[i] != "" && forall j :: 0 <= j < |ws[i]| ==> IsAlnum(ws[i][j])
    ensures ws != [] ==>
              var s := Join(ws);
              s != "" && IsAlnum(s[0]) && IsAlnum(s[|s| - 1])
    ensures forall i :: 0 <= i < |Join(ws)| ==> IsAlnum(Join(ws)[i]) || Join(ws)[i] == '-'
    ensures forall i :: 0 < i < |Join(ws)| ==> IsAlnum(Join(ws)[i - 1]) || IsAlnum(Join(ws)[i])
  {
    if |ws| > 1 {
      JoinIsDashed(ws[1..]);
      var rest := Join(ws[1..]);
      assert Join(ws) == ws[0] + "-" + rest;
      var a := |ws[0]|;
      assert Join(ws)[..a] == ws[0] && Join(ws)[a] == '-' && Join(ws)[a + 1..] == rest;
      assert forall i :: a + 1 <= i < |Join(ws)| ==> Join(ws)[i] == rest[i - a - 1];
    }
  }

  lemma {:induction false} JoinCons(c: char, ws: seq<string>)
    requires ws != []
    ensures Join([[c] + ws[0]] + ws[1..]) == [c] + Join(ws)
  {
    var more := [[c] + ws[0]] + ws[1..];
    if |ws| > 1 {
      assert more[1..] == ws[1..];
    }
  }

  lemma {:induction false} StripRightCons(c: char, s: string)
    ensures StripRight([c] + s) == if StripRight(s) == "" && c == '-' then "" else [c] + StripRight(s)
  {
    if s != "" {
      assert ([c] + s)[..|s|] == [c] + s[..|s| - 1];
      if s[|s| - 1] == '-' {
        StripRightCons(c, s[..|s| - 1]);
      }
    } else {
      assert [c] + s == [c];
      assert [c][..0] == "";
    }
  }

  /** Up to a leading dash, the sanitized text is the words joined by dashes. */
  lemma {:induction false} SanitizeJoins(s: string)
    ensures StripRight(Sanitize(s)) == Lead(s) + Join(Words(s))
    decreases |s|
  {
    hide StripRight, Join, Words;
    if s == "" {
      assert StripRight("") == "" && Join(Words("")) == "" by {
        NothingToJoin();
      }
    } else if IsAlnum(s[0]) {
      SanitizeJoins(s[1..]);
      StripRightCons(s[0], Sanitize(s[1..]));
      JoinAlnum(s);
    } else {
      var rest := SkipRun(s[1..]);
      SanitizeJoins(rest);
      StripRightCons('-', Sanitize(rest));
      JoinDash(s);
    }
  }

  /** A dash, if the text begins with a run that is replaced and anything else follows. */
  ghost function Lead(s: string): string {
    if s != "" && !IsAlnum(s[0]) && Words(s) != [] then "-" else ""
  }

  lemma NothingToJoin()
    ensures StripRight("") == "" && Join(Words("")) == ""
  {
  }

  lemma JoinAlnum(s: string)
    requires s != "" && IsAlnum(s[0])
    ensures Lead(s) == "" && Join(Words(s)) == [s[0]] + (Lead(s[1..]) + Join(Words(s[1..])))
  {
    var rest := Words(s[1..]);
    if |s| > 1 && IsAlnum(s[1]) {
      JoinCons(s[0], rest);
      assert "" + Join(rest) == Join(rest);
    } else {
      assert Words(s) == [[s[0]]] + rest;
      assert Words(s)[1..] == rest;
      if rest == [] {
        assert Lead(s[1..]) + Join(rest) == "";
        assert Join(Words(s)) == [s[0]];
      } else {
        assert Join(Words(s)) == [s[0]] + "-" + Join(rest);
        assert [s[0]] + "-" + Join(rest) == [s[0]] + ("-" + Join(rest));
      }
    }
  }

  lemma JoinDash(s: string)
    requires s != "" && !IsAlnum(s[0])
    ensures var rest := SkipRun(s[1..]);
            && Lead(rest) == ""
            && Words(s) == Words(rest)
            && Lead(s) + Join(Words(s)) == if Join(Words(rest)) == "" then "" else "-" + Join(Words(rest))
  {
    WordsSkipRun(s[1..]);
    JoinIsDashed(Words(s));
  }

  lemma {:induction false} StripCommutes(s: string)
    ensures StripLeft(StripRight(s)) == StripRight(StripLeft(s))
  {
    if s != "" {
      assert s == [s[0]] + s[1..];
      StripRightCons(s[0], s[1..]);
      StripCommutes(s[1..]);
      if s[0] == '-' && StripRight(s[1..]) == "" {
        assert StripLeft("") == "";
      }
    }
  }

  /** The stripped text is exactly the words of the target, joined by single dashes. */
  lemma StrippedIsJoined(s: string)
    ensures Strip(Sanitize(s)) == Join(Words(s))
  {
    StripCommutes(Sanitize(s));
    SanitizeJoins(s);
    JoinIsDashed(Words(s));
    var j := Join(Words(s));
    if Lead(s) == "-" {
      assert ("-" + j)[1..] == j;
    } else {
      assert "" + j == j;
    }
  }

  /** The name is the words joined by dashes, cut after at most 63 characters, one less if
      that would leave a dash at the end, and a fixed word when nothing is left. */
  lemma MountNameIs(lower: string -> string, target: string)
    ensures var full := Join(Words(lower(target)));
            MountName(lower, target)
            == if full == "" then "root"
               else if |full| <= 63 then full
               else if full[62] == '-' then full[..62]
               else full[..63]
  {
    var ws := Words(lower(target));
    StrippedIsJoined(lower(target));
    JoinIsDashed(ws);
    hide Sanitize, Words, Join;
    var full := Join(ws);
    if full == "" {
      assert Strip(Take(full, 63)) == "";
    } else {
      CutIs(full);
    }
  }

  lemma StripOneDash(s: string)
    requires s != "" && (IsAlnum(s[|s| - 1]) || (|s| >= 2 && IsAlnum(s[|s| - 2])))
    ensures StripRight(s) == if s[|s| - 1] == '-' then s[..|s| - 1] else s
  {
  }

  lemma CutIs(full: string)
    requires full != "" && IsAlnum(full[0]) && IsAlnum(full[|full| - 1])
    requires forall i :: 0 < i < |full| ==> IsAlnum(full[i - 1]) || IsAlnum(full[i])
    ensures Strip(Take(full, 63))
            == if |full| <= 63 then full else if full[62] == '-' then full[..62] else full[..63]
  {
    var cut := Take(full, 63);
    assert cut[0] == full[0];
    assert StripLeft(cut) == cut;
    if |full| > 63 {
      assert cut[62] == full[62] && cut[61] == full[61];
      assert cut[..62] == full[..62];
      assert cut == full[..63];
      StripOneDash(cut);
    } else {
      assert cut == full;
      assert cut[|cut| - 1] == full[|full| - 1];
      StripOneDash(cut);
    }
  }

  /** What a label is, character by character. */
  lemma IsLabelExactly(s: string)
    ensures IsLabel(s) <==>
              && 1 <= |s| <= 63 && s[0] != '-' && s[|s| - 1] != '-'
              && forall c :: c in s ==> 'a' <= c <= 'z' || '0' <= c <= '9' || c == '-'
  {
    assert forall i :: 0 <= i < |s| ==> s[i] in s;
  }

  predicate IsCleanLabel(s: string) {
    IsLabel(s) && forall i :: 0 < i < |s| ==> IsAlnum(s[i - 1]) || IsAlnum(s[i])
  }

  /** Every mount name is a label, without two dashes in a row. */
  lemma MountNameIsLabel(lower: string -> string, target: string)
    ensures IsCleanLabel(MountName(lower, target))
  {
    MountNameIs(lower, target);
    var ws := Words(lower(target));
    JoinIsDashed(ws);
    var full := Join(ws);
    if full == "" {
      assert IsCleanLabel("root");
    }
  }

  lemma {:induction false} CleanTextStays(s: string)
    requires forall i :: 0 <= i < |s| ==> IsAlnum(s[i]) || s[i] == '-'
    requires forall i :: 0 < i < |s| ==> IsAlnum(s[i - 1]) || IsAlnum(s[i])
    ensures Sanitize(s) == s
  {
    if s != "" {
      CleanTextStays(s[1..]);
      assert !IsAlnum(s[0]) && |s| > 1 ==> IsAlnum(s[1]);
      assert !IsAlnum(s[0]) ==> SkipRun(s[1..]) == s[1..];
    }
  }

  /** A clean label names itself; so naming a mount by its name changes nothing. */
  lemma CleanLabelsStay(lower: string -> string, name: string)
    requires IsCleanLabel(name) && lower(name) == name
    ensures MountName(lower, name) == name
  {
    CleanTextStays(name);
    assert StripLeft(name) == name && StripRight(name) == name;
  }

  // ---------------------------------------------------------------- numbers

  function Digits(n: nat): (s: string)
    ensures s != ""
    ensures forall i :: 0 <= i < |s| ==> '0' <= s[i] <= '9'
  {
    var last := ['0' + (n % 10) as char];
    if n < 10 then last else Digits(n / 10) + last
  }

  ghost function Value(s: string): int {
    if s == "" then 0 else 10 * Value(s[..|s| - 1]) + (s[|s| - 1] as int - '0' as int)
  }

  lemma {:induction false} DigitsRoundTrip(n: nat)
    ensures Value(Digits(n)) == n
  {
    var s := Digits(n);
    var last := '0' + (n % 10) as char;
    assert last as int - '0' as int == n % 10;
    if n >= 10 {
      DigitsRoundTrip(n / 10);
      assert s[..|s| - 1] == Digits(n / 10);
    } else {
      assert s[..0] == "";
    }
  }

  lemma ThreeDigits(n: nat)
    ensures |Digits(n)| <= 3 <==> n <= 999
    ensures 1000 <= n < 10000 ==> |Digits(n)| == 4
  {
    var d := n / 10;
    assert n >= 10 ==> |Digits(n)| == |Digits(d)| + 1;
    assert d >= 10 ==> |Digits(d)| == |Digits(d / 10)| + 1;
    assert d / 10 >= 10 ==> |Digits(d / 10)| == |Digits(d / 10 / 10)| + 1;
  }

  // ---------------------------------------------------------------- choosing a free name

  /** The `c`-th name tried for a base name. */
  function Attempt(base: string, c: nat): string {
    if c <= 1 then base else Take(base, 59) + "-" + Digits(c)
  }

  lemma AttemptsDiffer(base: string, c: nat, d: nat)
    requires 2 <= c < d
    ensures Attempt(base, c) != Attempt(base, d)
  {
    DigitsRoundTrip(c);
    DigitsRoundTrip(d);
    var n := |Take(base, 59)| + 1;
    assert Attempt(base, c)[n..] == Digits(c);
    assert Attempt(base, d)[n..] == Digits(d);
  }

  /** As many names are taken as numbers have been tried. */
  lemma {:induction false} Pigeonhole(base: string, seen: set<string>, c: nat)
    requires 1 <= c
    requires forall k: nat :: 2 <= k <= c ==> Attempt(base, k) in seen
    ensures c - 1 <= |seen|
  {
    if c >= 2 {
      var last := Attempt(base, c);
      forall k: nat | 2 <= k <= c - 1
        ensures Attempt(base, k) in seen - {last}
      {
        AttemptsDiffer(base, k, c);
      }
      Pigeonhole(base, seen - {last}, c - 1);
    }
  }

  /** `name` is the first attempt that is free, and it is the `c`-th. */
  ghost predicate Chosen(base: string, seen: set<string>, name: string, c: nat) {
    && 1 <= c
    && name == Attempt(base, c)
    && name !in seen
    && forall k: nat :: 1 <= k < c ==> Attempt(base, k) in seen
  }

  /** The counter stops by the number of taken names plus two. */
  lemma CounterIsBounded(base: string, seen: set<string>, name: string, c: nat)
    requires Chosen(base, seen, name, c)
    ensures c <= |seen| + 2
  {
    if c > 1 {
      Pigeonhole(base, seen, c - 1);
    }
  }

  ghost function Taken(names: seq<string>): set<string> {
    set i | 0 <= i < |names| :: names[i]
  }

  lemma {:induction false} TakenIsSmall(names: seq<string>)
    ensures |Taken(names)| <= |names|
  {
    if names != [] {
      var n := |names| - 1;
      TakenIsSmall(names[..n]);
      assert forall i :: 0 <= i < n ==> names[i] == names[..n][i];
      assert Taken(names) == Taken(names[..n]) + {names[n]};
    }
  }

  /** The names that the mounts get, one after the other. */
  ghost predicate Named(lower: string -> string, targets: seq<string>, names: seq<string>)
    ensures Named(lower, targets, names) ==> |names| == |targets|
  {
    if targets == [] || names == [] then targets == [] && names == []
    else
      var n := |names| - 1;
      && Named(lower, targets[..|targets| - 1], names[..n])
      && IsNext(MountName(lower, targets[|targets| - 1]), names[..n], names[n])
  }

  ghost predicate IsNext(base: string, before: seq<string>, name: string) {
    exists c: nat :: Chosen(base, Taken(before), name, c)
  }

  lemma {:induction false} NextName(lower: string -> string, targets: seq<string>, names: seq<string>, i: nat)
    requires Named(lower, targets, names) && i < |names|
    ensures IsNext(MountName(lower, targets[i]), names[..i], names[i])
    ensures Named(lower, targets[..i + 1], names[..i + 1])
  {
    hide MountName, IsNext;
    var n := |names| - 1;
    if i < n {
      NextName(lower, targets[..n], names[..n], i);
      assert names[..n][..i] == names[..i] && names[..n][..i + 1] == names[..i + 1];
      assert targets[..n][..i + 1] == targets[..i + 1];
    } else {
      assert names[..i + 1] == names && targets[..i + 1] == targets;
    }
  }

  /** The names are determined by the targets. */
  lemma {:induction false} NamesAreDetermined(
    lower: string -> string, targets: seq<string>, names: seq<string>, others: seq<string>)
    requires Named(lower, targets, names) && Named(lower, targets, others)
    ensures names == others
    decreases |targets|
  {
    hide MountName, IsNext;
    if targets != [] {
      var n := |targets| - 1;
      NamesAreDetermined(lower, targets[..n], names[..n], others[..n]);
      NextIsDetermined(MountName(lower, targets[n]), names[..n], names[n], others[n]);
      assert names == names[..n] + [names[n]] && others == others[..n] + [others[n]];
    }
  }

  lemma NextIsDetermined(base: string, before: seq<string>, name: string, other: string)
    requires IsNext(base, before, name) && IsNext(base, before, other)
    ensures name == other
  {
    var c: nat :| Chosen(base, Taken(before), name, c);
    var d: nat :| Chosen(base, Taken(before), other, d);
  }

  /** The names are pairwise distinct. */
  lemma {:induction false} NamesAreDistinct(lower: string -> string, targets: seq<string>, names: seq<string>)
    requires Named(lower, targets, names)
    ensures forall i, j :: 0 <= i < j < |names| ==> names[i] != names[j]
  {
    forall i, j | 0 <= i < j < |names|
      ensures names[i] != names[j]
    {
      NextName(lower, targets, names, j);
      assert names[..j][i] == names[i];
    }
  }

  lemma AttemptIsLabel(base: string, c: nat)
    requires IsLabel(base)
    ensures c <= 999 ==> IsLabel(Attempt(base, c))
    ensures IsLabel(Attempt(base, c)) <==> c <= 1 || |Take(base, 59)| + |Digits(c)| <= 62
  {
    if c > 1 {
      ThreeDigits(c);
      var s := Attempt(base, c);
      var a := Take(base, 59);
      assert s[0] == base[0];
      assert s[|s| - 1] == Digits(c)[|Digits(c)| - 1];
      forall i | 0 <= i < |s|
        ensures IsAlnum(s[i]) || s[i] == '-'
      {
        if i > |a| {
          assert s[i] == Digits(c)[i - |a| - 1];
        }
      }
    }
  }

  /** Up to the 998th mount every name is a label. */
  lemma NamesAreLabels(lower: string -> string, targets: seq<string>, names: seq<string>, i: nat)
    requires Named(lower, targets, names) && i < |names| && i < 998
    ensures IsLabel(names[i])
  {
    var base := MountName(lower, targets[i]);
    NextName(lower, targets, names, i);
    var c: nat :| Chosen(base, Taken(names[..i]), names[i], c);
    MountNameIsLabel(lower, targets[i]);
    CounterIsBounded(base, Taken(names[..i]), names[i], c);
    TakenIsSmall(names[..i]);
    AttemptIsLabel(base, c);
  }

  // ---------------------------------------------------------------- the bound is exact

  /** A long base name that is itself a numbered attempt. */
  ghost function Awkward(): string {
    seq(59, i => 'a') + "-2"
  }

  ghost function Copies(n: nat): seq<string> {
    seq(n, i => Awkward())
  }

  lemma AwkwardStays(lower: string -> string)
    requires lower(Awkward()) == Awkward()
    ensures MountName(lower, Awkward()) == Awkward()
  {
    CleanLabelsStay(lower, Awkward());
  }

  lemma AwkwardAttempt()
    ensures Attempt(Awkward(), 2) == Awkward()
    ensures |Attempt(Awkward(), 1000)| == 64
  {
    assert Awkward()[..59] == seq(59, i => 'a');
    assert Digits(2) == "2";
    assert seq(59, i => 'a') + "-" + "2" == Awkward();
    ThreeDigits(1000);
  }

  /** The attempts from the second to the `n + 1`-st, the second being the base itself. */
  ghost predicate Numbered(base: string, names: seq<string>) {
    forall i :: 0 <= i < |names| ==> names[i] == Attempt(base, i + 2)
  }

  /** If the base is its own second attempt, the attempts are taken in order. */
  lemma NextIsNumbered(base: string, names: seq<string>, name: string)
    requires Attempt(base, 2) == base && Numbered(base, names) && IsNext(base, names, name)
    ensures name == Attempt(base, |names| + 2)
  {
    hide Attempt;
    var n := |names|;
    FirstAttempt(base);
    forall k: nat | 2 <= k < n + 2
      ensures Attempt(base, k) in Taken(names)
    {
      assert names[k - 2] == Attempt(base, k);
    }
    var c: nat :| Chosen(base, Taken(names), name, c);
    if c > n + 2 {
      var i :| 0 <= i < n && names[i] == Attempt(base, n + 2);
      AttemptsDiffer(base, i + 2, n + 2);
      assert false;
    }
  }

  lemma FirstAttempt(base: string)
    ensures Attempt(base, 1) == base
  {
  }

  /** Equal awkward targets: the first keeps its name, the others are numbered from 3 on. */
  lemma {:induction false} CopiesAreNumbered(lower: string -> string, names: seq<string>)
    requires lower(Awkward()) == Awkward()
    requires Named(lower, Copies(|names|), names)
    ensures Numbered(Awkward(), names)
    decreases |names|
  {
    hide MountName, IsNext, Awkward;
    if names != [] {
      var n := |names| - 1;
      assert Copies(|names|)[..n] == Copies(n);
      CopiesAreNumbered(lower, names[..n]);
      AwkwardStays(lower);
      AwkwardAttempt();
      NextIsNumbered(Awkward(), names[..n], names[n]);
      assert names == names[..n] + [names[n]];
    }
  }

  ghost predicate AllLabels(names: seq<string>) {
    forall i :: 0 <= i < |names| ==> IsLabel(names[i])
  }

  ghost predicate AlwaysLabels(lower: string -> string, n: nat) {
    forall targets, names :: |targets| == n && Named(lower, targets, names) ==> AllLabels(names)
  }

  /** All names are labels for every list of `n` targets exactly when `n` is at most 998. */
  lemma LabelsExactlyUpTo998(lower: string -> string, n: nat)
    requires lower(Awkward()) == Awkward()
    ensures n <= 998 <==> AlwaysLabels(lower, n)
  {
    if n <= 998 {
      forall targets, names | |targets| == n && Named(lower, targets, names)
        ensures AllLabels(names)
      {
        forall i | 0 <= i < |names|
          ensures IsLabel(names[i])
        {
          NamesAreLabels(lower, targets, names, i);
        }
      }
    } else {
      var names := NamesExist(lower, Copies(n));
      CopiesAreNumbered(lower, names);
      AwkwardAttempt();
      assert !IsLabel(names[998]);
    }
  }

  /** Some names always do. */
  lemma {:induction false} NamesExist(lower: string -> string, targets: seq<string>) returns (names: seq<string>)
    ensures Named(lower, targets, names)
  {
    hide MountName;
    if targets == [] {
      names := [];
    } else {
      var n := |targets| - 1;
      var before := NamesExist(lower, targets[..n]);
      var base, seen := MountName(lower, targets[n]), Taken(before);
      var c := FirstFree(base, seen, 1);
      names := before + [Attempt(base, c)];
      NamedGrows(lower, targets[..n], before, targets[n], Attempt(base, c), c);
      assert targets == targets[..n] + [targets[n]];
    }
  }

  lemma {:induction false} FirstFree(base: string, seen: set<string>, from: nat) returns (c: nat)
    requires 1 <= from <= |seen| + 2
    requires forall k: nat :: 1 <= k < from ==> Attempt(base, k) in seen
    ensures Chosen(base, seen, Attempt(base, c), c)
    decreases |seen| + 2 - from
  {
    if Attempt(base, from) in seen {
      Pigeonhole(base, seen, from);
      c := FirstFree(base, seen, from + 1);
    } else {
      c := from;
    }
  }

  // ---------------------------------------------------------------- the mounts of a workload

  datatype Propagation = PrivatePropagation | RSlave | Shared

  datatype FolderMount = FolderMount(target: string, source: string, readOnly: bool, propagation: Option<Propagation>)

  datatype WorkloadMount = WorkloadMount(
    name: string, source: string, target: string, readOnly: bool, propagation: Option<Propagation>)

  function Targets(mounts: seq<FolderMount>): seq<string> {
    seq(|mounts|, i requires 0 <= i < |mounts| => mounts[i].target)
  }

  function Names(mounts: seq<WorkloadMount>): seq<string> {
    seq(|mounts|, i requires 0 <= i < |mounts| => mounts[i].name)
  }

  /** The mount is that of the folder, with a name. */
  predicate SameFolder(w: WorkloadMount, f: FolderMount) {
    w == WorkloadMount(w.name, f.source, f.target, f.readOnly, f.propagation)
  }

  lemma SameFolderInEveryField(w: WorkloadMount, f: FolderMount)
    ensures SameFolder(w, f) <==>
              w.source == f.source && w.target == f.target && w.readOnly == f.readOnly && w.propagation == f.propagation
  {
  }

  method WorkloadFolderMounts(lower: string -> string, folders: seq<FolderMount>) returns (mounts: seq<WorkloadMount>)
    ensures Named(lower, Targets(folders), Names(mounts))
    ensures |mounts| == |folders| && forall i :: 0 <= i < |mounts| ==> SameFolder(mounts[i], folders[i])
  {
    hide MountName, Attempt, Chosen, Named, Taken;
    mounts := [];
    var seen: set<string> := {};
    NothingIsNamed(lower);
    assert Names([]) == [] && Targets(folders)[..0] == [];
    for n := 0 to |folders|
      invariant |mounts| == n
      invariant forall i :: 0 <= i < n ==> SameFolder(mounts[i], folders[i])
      invariant seen == Taken(Names(mounts))
      invariant Named(lower, Targets(folders)[..n], Names(mounts))
    {
      var f := folders[n];
      var name, counter := FreeName(MountName(lower, f.target), seen);
      NamedGrows(lower, Targets(folders)[..n], Names(mounts), f.target, name, counter);
      TakenOfAppend(Names(mounts), name);
      seen := seen + {name};
      ghost var before := Names(mounts);
      mounts := mounts + [WorkloadMount(name, f.source, f.target, f.readOnly, f.propagation)];
      assert Names(mounts) == before + [name];
      assert Targets(folders)[..n + 1] == Targets(folders)[..n] + [f.target];
    }
    assert Targets(folders)[..|folders|] == Targets(folders);
  }

  /** Counts up to a name that nobody has. */
  method FreeName(baseName: string, seen: set<string>) returns (name: string, counter: nat)
    ensures Chosen(baseName, seen, name, counter) && counter <= |seen| + 2
  {
    name, counter := baseName, 1;
    while name in seen
      invariant 1 <= counter <= |seen| + 2
      invariant name == Attempt(baseName, counter)
      invariant forall k: nat :: 1 <= k < counter ==> Attempt(baseName, k) in seen
      decreases |seen| + 2 - counter
    {
      Pigeonhole(baseName, seen, counter);
      counter := counter + 1;
      name := Take(baseName, 59) + "-" + Digits(counter);
    }
  }

  lemma NothingIsNamed(lower: string -> string)
    ensures Named(lower, [], []) && Taken([]) == {}
  {
  }

  lemma TakenOfAppend(names: seq<string>, name: string)
    ensures Taken(names + [name]) == Taken(names) + {name}
  {
    var all := names + [name];
    assert all[|names|] == name;
    assert forall i :: 0 <= i < |names| ==> all[i] == names[i];
  }

  lemma NamedGrows(
    lower: string -> string, targets: seq<string>, names: seq<string>, target: string, name: string, c: nat)
    requires Named(lower, targets, names) && Chosen(MountName(lower, target), Taken(names), name, c)
    ensures Named(lower, targets + [target], names + [name])
  {
    var allTargets, all := targets + [target], names + [name];
    var n := |names|;
    assert all[..n] == names && allTargets[..n] == targets;
    assert IsNext(MountName(lower, target), names, name);
  }
}
