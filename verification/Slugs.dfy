/** Dashboard file names (apps/linsight-gui/src/qobjects/dashboards_model.rs): which names are valid slugs,
    how one is derived from a display name, and which candidates are tried when it is taken. */
module Slugs {
  import opened Prelude

  const MAX_SLUG: nat := 40
  const CANDIDATES: nat := 99

  predicate IsLower(c: char) { 'a' <= c <= 'z' }
  predicate IsUpper(c: char) { 'A' <= c <= 'Z' }
  predicate IsDigit(c: char) { '0' <= c <= '9' }
  predicate IsSlugChar(c: char) { IsLower(c) || IsDigit(c) || c == '-' }

  predicate NoDoubleDash(s: string) { forall i | 0 <= i < |s| - 1 :: !(s[i] == '-' && s[i + 1] == '-') }

  predicate IsValidSlug(s: string)
  {
    && 0 < |s| <= MAX_SLUG
    && s[0] != '-' && s[|s| - 1] != '-' && NoDoubleDash(s)
    && forall i | 0 <= i < |s| :: IsSlugChar(s[i])
  }

  // ---- deriving a slug --------------------------------------------------------------------------

  function AsciiLower(c: char): char { if IsUpper(c) then c - 'A' + 'a' else c }

  /** What the loop over the name appends: letters and digits in lower case, one dash per run of other
      characters, none at the start. `lastDash` tells whether a dash would be superfluous. */
  function Collapse(name: string, lastDash: bool): string
  {
    if name == "" then ""
    else
      var lower := AsciiLower(name[0]);
      if IsLower(lower) || IsDigit(lower) then [lower] + Collapse(name[1..], false)
      else if lastDash then Collapse(name[1..], true)
      else ['-'] + Collapse(name[1..], true)
  }

  function TrimDashes(s: string): (r: string)
    ensures r <= s
    ensures r != "" ==> r[|r| - 1] != '-'
  {
    if s != "" && s[|s| - 1] == '-' then TrimDashes(s[..|s| - 1]) else s
  }

  function HexDigit(d: nat): char
    requires d < 16
  {
    if d < 10 then '0' + d as char else 'a' + (d - 10) as char
  }

  /** `{:08x}` */
  function Hex8(h: nat): string { Hex(h, 8) }

  function Hex(h: nat, digits: nat): (r: string)
    ensures |r| == digits
    ensures forall i | 0 <= i < |r| :: IsLower(r[i]) || IsDigit(r[i])
  {
    if digits == 0 then "" else Hex(h / 16, digits - 1) + [HexDigit(h % 16)]
  }

  /** The slug for a name; `hash` is the low half of the hash of the name. */
  function DeriveSlug(name: string, hash: nat): string
  {
    var trimmed := TrimDashes(Collapse(name, true));
    var cut := if |trimmed| > MAX_SLUG then TrimDashes(trimmed[..MAX_SLUG]) else trimmed;
    if cut == "" then "dash-" + Hex8(hash) else cut
  }

  method DeriveSlugLoop(name: string, hash: nat) returns (out: string)
    ensures out == DeriveSlug(name, hash)
  {
    out := "";
    var lastDash := true;
    for i := 0 to |name|
      invariant out + Collapse(name[i..], lastDash) == Collapse(name, true)
    {
      assert name[i..][1..] == name[i + 1..];
      var lower := AsciiLower(name[i]);
      if IsLower(lower) || IsDigit(lower) {
        assert out + ([lower] + Collapse(name[i + 1..], false)) == (out + [lower]) + Collapse(name[i + 1..], false);
        out := out + [lower];
        lastDash := false;
      } else if !lastDash {
        assert out + (['-'] + Collapse(name[i + 1..], true)) == (out + ['-']) + Collapse(name[i + 1..], true);
        out := out + ['-'];
        lastDash := true;
      }
    }
    assert out == Collapse(name, true);
    out := PopDashes(out);
    if |out| > MAX_SLUG {
      out := out[..MAX_SLUG];
      out := PopDashes(out);
    }
    if out == "" {
      out := "dash-" + Hex8(hash);
    }
  }

  method PopDashes(s: string) returns (r: string)
    ensures r == TrimDashes(s)
  {
    r := s;
    while r != "" && r[|r| - 1] == '-'
      invariant TrimDashes(s) == TrimDashes(r)
      decreases |r|
    {
      r := r[..|r| - 1];
    }
  }

  /** Built from slug characters with no two dashes in a row, and not starting with one if told so. */
  ghost predicate Clean(s: string, lastDash: bool)
  {
    && (forall i | 0 <= i < |s| :: IsSlugChar(s[i]))
    && NoDoubleDash(s)
    && (lastDash && s != "" ==> s[0] != '-')
  }

  lemma {:induction false} CollapseIsClean(name: string, lastDash: bool)
    ensures Clean(Collapse(name, lastDash), lastDash)
  {
    if name == "" {
    } else {
      var lower := AsciiLower(name[0]);
      if IsLower(lower) || IsDigit(lower) {
        CollapseIsClean(name[1..], false);
        CleanCons(lower, Collapse(name[1..], false), false);
      } else {
        CollapseIsClean(name[1..], true);
        if !lastDash { CleanCons('-', Collapse(name[1..], true), true); }
      }
    }
  }

  lemma CleanCons(c: char, s: string, afterDash: bool)
    requires IsSlugChar(c) && Clean(s, afterDash) && afterDash == (c == '-')
    ensures Clean([c] + s, false) && (c != '-' ==> Clean([c] + s, true))
  {
    var t := [c] + s;
    forall i | 0 <= i < |t| - 1 ensures !(t[i] == '-' && t[i + 1] == '-') {
      if i > 0 { assert t[i] == s[i - 1] && t[i + 1] == s[i]; }
    }
  }

  lemma CleanPrefix(s: string, r: string)
    requires Clean(s, true) && r <= s
    ensures Clean(r, true)
  {
    forall i | 0 <= i < |r| - 1 ensures !(r[i] == '-' && r[i + 1] == '-') {
      assert r[i] == s[i] && r[i + 1] == s[i + 1];
    }
  }

  /** Every name, whatever its characters and length, yields a valid slug. */
  lemma DerivedSlugIsValid(name: string, hash: nat)
    ensures IsValidSlug(DeriveSlug(name, hash))
  {
    CollapseIsClean(name, true);
    var s := Collapse(name, true);
    var trimmed := TrimDashes(s);
    CleanPrefix(s, trimmed);
    var cut := if |trimmed| > MAX_SLUG then TrimDashes(trimmed[..MAX_SLUG]) else trimmed;
    assert cut <= trimmed;
    CleanPrefix(trimmed, cut);
    if cut == "" { FallbackIsValid(hash); }
  }

  lemma FallbackIsValid(hash: nat)
    ensures IsValidSlug("dash-" + Hex8(hash))
  {
    var h := Hex8(hash);
    var s := "dash-" + h;
    forall i | 0 <= i < |s| ensures IsSlugChar(s[i]) { if i >= 5 { assert s[i] == h[i - 5]; } }
    forall i | 0 <= i < |s| - 1 ensures !(s[i] == '-' && s[i + 1] == '-') {
      if i >= 4 { assert s[i + 1] == h[i - 4]; }
    }
  }

  lemma {:induction false} CollapseKeepsClean(s: string, lastDash: bool)
    requires Clean(s, lastDash)
    ensures Collapse(s, lastDash) == s
  {
    if s == "" {
    } else {
      var rest := s[1..];
      forall i | 0 <= i < |rest| - 1 ensures !(rest[i] == '-' && rest[i + 1] == '-') {
        assert rest[i] == s[i + 1] && rest[i + 1] == s[i + 2];
      }
      if s[0] == '-' && rest != "" { assert s[1] != '-'; }
      CollapseKeepsClean(rest, s[0] == '-');
      assert s == [s[0]] + rest;
    }
  }

  /** A valid slug is its own slug, so deriving twice is deriving once. */
  lemma ValidSlugIsFixed(s: string, hash: nat)
    requires IsValidSlug(s)
    ensures DeriveSlug(s, hash) == s
  {
    CollapseKeepsClean(s, true);
    assert TrimDashes(s) == s;
  }

  lemma DerivingIsIdempotent(name: string, hash: nat, hash': nat)
    ensures DeriveSlug(DeriveSlug(name, hash), hash') == DeriveSlug(name, hash)
  {
    DerivedSlugIsValid(name, hash);
    ValidSlugIsFixed(DeriveSlug(name, hash), hash');
  }

  // ---- what a slug is, without the loop ---------------------------------------------------------

  /** An ASCII letter or digit, by its code. */
  predicate IsAlnum(c: char) { 48 <= c as int <= 57 || 65 <= c as int <= 90 || 97 <= c as int <= 122 }

  function LowerCase(c: char): char { if 65 <= c as int <= 90 then (c as int + 32) as char else c }

  /** The maximal runs of letters and digits of a name, in lower case. */
  ghost function Runs(name: string): (runs: seq<string>)
    ensures name != "" && IsAlnum(name[0]) ==> runs != []
  {
    if name == "" then []
    else if !IsAlnum(name[0]) then Runs(name[1..])
    else if |name| == 1 || !IsAlnum(name[1]) then [[LowerCase(name[0])]] + Runs(name[1..])
    else
      var rest := Runs(name[1..]);
      [[LowerCase(name[0])] + rest[0]] + rest[1..]
  }

  ghost function Joined(runs: seq<string>): string
  {
    if runs == [] then "" else if |runs| == 1 then runs[0] else runs[0] + "-" + Joined(runs[1..])
  }

  /** The dash the loop leaves behind a name that ends in something else. */
  ghost function Trailing(name: string): string
  {
    if Runs(name) != [] && !IsAlnum(name[|name| - 1]) then "-" else ""
  }

  lemma SameLetters(c: char)
    ensures IsAlnum(c) <==> IsLower(AsciiLower(c)) || IsDigit(AsciiLower(c))
    ensures IsAlnum(c) ==> AsciiLower(c) == LowerCase(c)
  {
  }

  lemma {:induction false} NoRuns(name: string)
    requires Runs(name) == [] && name != ""
    ensures !IsAlnum(name[|name| - 1])
  {
    if |name| > 1 { NoRuns(name[1..]); }
  }

  /** What the loop appends for the rest of a name behind a letter or digit, and at the start or behind a dash. */
  ghost predicate CollapsesTo(name: string)
  {
    var runs, tail := Runs(name), Trailing(name);
    && Collapse(name, true) == Joined(runs) + tail
    && Collapse(name, false) == (if name == "" then ""
                                 else if IsAlnum(name[0]) then Joined(runs) + tail
                                 else if runs == [] then "-" else "-" + (Joined(runs) + tail))
  }

  lemma {:induction false} CollapseJoinsRuns(name: string)
    ensures CollapsesTo(name)
  {
    if name == "" {
    } else {
      SameLetters(name[0]);
      CollapseJoinsRuns(name[1..]);
      if IsAlnum(name[0]) { CollapseInRun(name); } else { CollapseBetweenRuns(name); }
    }
  }

  lemma CollapseBetweenRuns(name: string)
    requires name != "" && !IsAlnum(name[0]) && CollapsesTo(name[1..])
    ensures CollapsesTo(name)
  {
    SameLetters(name[0]);
    var rest := name[1..];
    if rest == "" {
    } else {
      assert name[|name| - 1] == rest[|rest| - 1];
    }
  }

  lemma CollapseInRun(name: string)
    requires name != "" && IsAlnum(name[0]) && CollapsesTo(name[1..])
    ensures CollapsesTo(name)
  {
    SameLetters(name[0]);
    var c, rest := LowerCase(name[0]), name[1..];
    var runs := Runs(rest);
    if rest == "" {
      assert Runs(name) == [[c]] && [c] + "" == [c];
    } else {
      assert name[|name| - 1] == rest[|rest| - 1];
      if IsAlnum(rest[0]) {
        PrefixFirst(c, runs);
        Associate([c], Joined(runs), Trailing(rest));
      } else if runs == [] {
        NoRuns(rest);
        assert Runs(name) == [[c]];
      } else {
        assert Runs(name) == [[c]] + runs && ([[c]] + runs)[1..] == runs;
        assert [c] + ("-" + (Joined(runs) + Trailing(rest))) == [c] + "-" + Joined(runs) + Trailing(rest);
      }
    }
  }

  lemma PrefixFirst(c: char, runs: seq<string>)
    requires runs != []
    ensures Joined([[c] + runs[0]] + runs[1..]) == [c] + Joined(runs)
  {
    var longer := [[c] + runs[0]] + runs[1..];
    assert longer[1..] == runs[1..];
    if |runs| > 1 { assert [c] + runs[0] + "-" + Joined(runs[1..]) == [c] + (runs[0] + "-" + Joined(runs[1..])); }
  }

  /** The runs are not empty and hold letters and digits only, so their join does not end in a dash. */
  lemma {:induction false} RunsAreAlnum(name: string)
    ensures forall i | 0 <= i < |Runs(name)| :: Runs(name)[i] != "" && Runs(name)[i][|Runs(name)[i]| - 1] != '-'
  {
    if name == "" {
    } else {
      RunsAreAlnum(name[1..]);
    }
  }

  lemma {:induction false} JoinEndsInRun(runs: seq<string>)
    requires forall i | 0 <= i < |runs| :: runs[i] != "" && runs[i][|runs[i]| - 1] != '-'
    ensures runs != [] ==> Joined(runs) != "" && Joined(runs)[|Joined(runs)| - 1] != '-'
  {
    if |runs| <= 1 {
    } else {
      JoinEndsInRun(runs[1..]);
    }
  }

  lemma {:induction false} TrimOneDash(s: string)
    requires s == "" || s[|s| - 1] != '-'
    ensures TrimDashes(s) == s && TrimDashes(s + "-") == s
  {
    var t := s + "-";
    assert t != "" && t[|t| - 1] == '-' && t[..|t| - 1] == s;
  }

  lemma {:induction false} TrimmedCollapse(name: string)
    ensures TrimDashes(Collapse(name, true)) == Joined(Runs(name))
    ensures Joined(Runs(name)) <= Collapse(name, true)
  {
    var joined, tail := Joined(Runs(name)), Trailing(name);
    assert Collapse(name, true) == joined + tail by { CollapseJoinsRuns(name); }
    assert joined == "" || joined[|joined| - 1] != '-' by {
      RunsAreAlnum(name);
      JoinEndsInRun(Runs(name));
    }
    TrimOneDash(joined);
    assert tail == "-" || (tail == "" && joined + tail == joined);
  }

  /** The slug of a name is its runs of ASCII letters and digits, in lower case, joined by single dashes and cut to
      forty characters, or thirty-nine if the fortieth were a dash; a name without such runs gets "dash-" and eight
      digits of its hash. */
  lemma SlugIsJoinedRuns(name: string, hash: nat)
    ensures var joined := Joined(Runs(name));
            DeriveSlug(name, hash) ==
            if joined == "" then "dash-" + Hex8(hash)
            else if |joined| <= 40 then joined
            else if joined[39] == '-' then joined[..39] else joined[..40]
  {
    TrimmedCollapse(name);
    CollapseIsClean(name, true);
    var joined := Joined(Runs(name));
    CleanPrefix(Collapse(name, true), joined);
    if |joined| > 40 {
      var cut := joined[..40];
      assert cut != "";
      if joined[39] == '-' {
        assert joined[38] != '-' && cut[..39] == joined[..39] && cut[39] == '-';
        assert TrimDashes(cut) == TrimDashes(joined[..39]);
      }
    }
  }

  ghost function HexValue(s: string): nat
  {
    if s == "" then 0
    else
      var c := s[|s| - 1] as int;
      16 * HexValue(s[..|s| - 1]) + if 48 <= c <= 57 then c - 48 else if 97 <= c <= 102 then c - 87 else 0
  }

  /** Hexadecimal digits, read back, give the number's low part. */
  lemma {:induction false} HexReadsBack(h: nat, digits: nat)
    ensures HexValue(Hex(h, digits)) < Pow16(digits)
    ensures h < Pow16(digits) ==> HexValue(Hex(h, digits)) == h
  {
    if digits == 0 {
    } else {
      HexReadsBack(h / 16, digits - 1);
      var s := Hex(h, digits);
      assert s[..digits - 1] == Hex(h / 16, digits - 1) && s[digits - 1] == HexDigit(h % 16);
      var n, front := Pow16(digits - 1), HexValue(s[..digits - 1]);
      assert HexValue(s) == 16 * front + h % 16;
      if h < 16 * n { assert h / 16 < n; }
    }
  }

  ghost function Pow16(n: nat): nat { if n == 0 then 1 else 16 * Pow16(n - 1) }

  /** A name without letters and digits is called "dash-" and the eight hexadecimal digits of its 32-bit hash. */
  lemma FallbackInNumbers(name: string, hash: nat)
    requires (forall i | 0 <= i < |name| :: !IsAlnum(name[i])) && hash < 0x1_0000_0000
    ensures exists d :: DeriveSlug(name, hash) == "dash-" + d && |d| == 8 && HexValue(d) == hash
  {
    assert Runs(name) == [] by { NothingToRun(name); }
    SlugIsJoinedRuns(name, hash);
    HexReadsBack(hash, 8);
    assert Pow16(8) == 0x1_0000_0000 by { assert Pow16(4) == 65536; }
    assert DeriveSlug(name, hash) == "dash-" + Hex8(hash);
  }

  lemma {:induction false} NothingToRun(name: string)
    requires forall i | 0 <= i < |name| :: !IsAlnum(name[i])
    ensures Runs(name) == []
  {
    if name == "" {
    } else {
      NothingToRun(name[1..]);
    }
  }

  /** What a valid slug is, in numbers: at most forty characters, each a lower-case letter, a digit or a dash, no
      dash at either end and no two in a row. */
  lemma ValidSlugExactly(s: string)
    ensures IsValidSlug(s) <==>
            && 1 <= |s| <= 40 && s[0] as int != 45 && s[|s| - 1] as int != 45
            && (forall i | 0 <= i < |s| :: 97 <= s[i] as int <= 122 || 48 <= s[i] as int <= 57 || s[i] as int == 45)
            && (forall i | 0 < i < |s| :: s[i - 1] as int != 45 || s[i] as int != 45)
  {
    if NoDoubleDash(s) {
      forall i | 0 < i < |s| ensures s[i - 1] as int != 45 || s[i] as int != 45 {
        assert !(s[i - 1] == '-' && s[(i - 1) + 1] == '-');
      }
    }
    if forall i | 0 < i < |s| :: s[i - 1] as int != 45 || s[i] as int != 45 {
      forall i | 0 <= i < |s| - 1 ensures !(s[i] == '-' && s[i + 1] == '-') {
        assert s[(i + 1) - 1] as int != 45 || s[i + 1] as int != 45;
      }
    }
  }

  // ---- finding a free one -----------------------------------------------------------------------

  function Decimal(n: nat): string
  {
    if n < 10 then ['0' + n as char] else Decimal(n / 10) + ['0' + (n % 10) as char]
  }

  /** The names tried in turn: `base`, `base-2`, up to `base-99`. */
  function Candidate(base: string, i: nat): string { if i == 0 then base else base + "-" + Decimal(i + 1) }

  ghost predicate Usable(base: string, i: nat, taken: set<string>)
  {
    IsValidSlug(Candidate(base, i)) && Candidate(base, i) !in taken
  }

  /** `slug` is the first candidate that is usable when its turn comes; `taken(i)` are the names in use when
      candidate `i` is tried, for others may create and remove files meanwhile. */
  ghost predicate IsFirstFreeInTurn(base: string, taken: nat -> set<string>, slug: string)
  {
    exists i: nat :: i < CANDIDATES && slug == Candidate(base, i) && Usable(base, i, taken(i))
                     && forall j: nat | j < i :: !Usable(base, j, taken(j))
  }

  /** The same while the directory does not change. */
  ghost predicate IsFirstFree(base: string, taken: set<string>, slug: string) { IsFirstFreeInTurn(base, _ => taken, slug) }

  datatype Allocation = Allocated(slug: string) | InvalidBase | AllTaken

  /** The first candidate that is valid and, when it is tried, free: opening a file for creation fails if and
      only if it is there. `AllTaken` only when every one was invalid or taken in its turn. */
  method AllocateUniqueSlug(base: string, taken: nat -> set<string>) returns (r: Allocation)
    ensures r.InvalidBase? <==> !IsValidSlug(base)
    ensures r.Allocated? ==> IsFirstFreeInTurn(base, taken, r.slug) && IsValidSlug(r.slug)
    ensures IsValidSlug(base) ==> (r.AllTaken? <==> forall i: nat | i < CANDIDATES :: !Usable(base, i, taken(i)))
  {
    if !IsValidSlug(base) { return InvalidBase; }
    for i := 0 to CANDIDATES
      invariant forall j: nat | j < i :: !Usable(base, j, taken(j))
    {
      var candidate := Candidate(base, i);
      if !IsValidSlug(candidate) { continue; }
      if candidate !in taken(i) {
        assert Usable(base, i, taken(i));
        return Allocated(candidate);
      }
    }
    r := AllTaken;
  }

  lemma FirstFreeIsUnique(base: string, taken: nat -> set<string>, s: string, t: string)
    requires IsFirstFreeInTurn(base, taken, s) && IsFirstFreeInTurn(base, taken, t)
    ensures s == t
  {
    var i: nat :| i < CANDIDATES && s == Candidate(base, i) && Usable(base, i, taken(i))
                  && forall j: nat | j < i :: !Usable(base, j, taken(j));
    var k: nat :| k < CANDIDATES && t == Candidate(base, k) && Usable(base, k, taken(k))
                  && forall j: nat | j < k :: !Usable(base, j, taken(j));
    assert i == k;
  }

  ghost function DecimalValue(s: string): nat
  {
    if s == "" then 0
    else 10 * DecimalValue(s[..|s| - 1]) + var c := s[|s| - 1] as int; if 48 <= c <= 57 then c - 48 else 0
  }

  lemma {:induction false} DecimalReadsBack(n: nat)
    ensures DecimalValue(Decimal(n)) == n && Decimal(n) != "" && (n > 0 ==> Decimal(n)[0] != '0')
  {
    if n < 10 {
      assert Decimal(n)[..0] == "";
    } else {
      DecimalReadsBack(n / 10);
      var d := Decimal(n);
      assert d[..|d| - 1] == Decimal(n / 10) && d[|d| - 1] == '0' + (n % 10) as char && d[0] == Decimal(n / 10)[0];
    }
  }

  /** The ninety-nine candidates are the base itself and the base with a dash and the numbers from 2 to 99. */
  lemma CandidatesInNumbers(base: string, i: nat)
    ensures CANDIDATES == 99 && Candidate(base, 0) == base
    ensures i > 0 ==>
              exists d :: Candidate(base, i) == base + "-" + d && DecimalValue(d) == i + 1 && d != "" && d[0] != '0'
  {
    DecimalReadsBack(i + 1);
    if i > 0 { assert Candidate(base, i) == base + "-" + Decimal(i + 1); }
  }

  /** From a base short enough for a numbered name, allocation fails only when all 99 names are in use. */
  lemma ShortBaseCandidates(base: string, i: nat)
    requires IsValidSlug(base) && |base| <= MAX_SLUG - 3 && i < CANDIDATES
    ensures IsValidSlug(Candidate(base, i))
  {
    if i > 0 {
      var d := Decimal(i + 1);
      assert |d| <= 2 && forall k | 0 <= k < |d| :: IsDigit(d[k]) by { TwoDigits(i + 1); }
      var s := base + "-" + d;
      forall k | 0 <= k < |s| ensures IsSlugChar(s[k]) {
        if k > |base| { assert s[k] == d[k - |base| - 1]; }
      }
      forall k | 0 <= k < |s| - 1 ensures !(s[k] == '-' && s[k + 1] == '-') {
        if k >= |base| { assert s[k + 1] == d[k - |base|]; }
      }
      assert s[|s| - 1] == d[|d| - 1];
    }
  }

  lemma {:induction false} TwoDigits(n: nat)
    requires n < 100
    ensures 1 <= |Decimal(n)| <= 2 && forall k | 0 <= k < |Decimal(n)| :: IsDigit(Decimal(n)[k])
  {
    if n >= 10 { assert |Decimal(n / 10)| == 1; }
  }
}
