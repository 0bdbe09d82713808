/**
 * The string built-ins the summariser relies on, as sequence functions:
 * Python's `str.strip`, `str.split(sep)` and `sep.join(parts)`, and JavaScript's
 * `String.prototype.trim`, `split(sep)` and `filter(Boolean)`.
 *
 * Python and JavaScript disagree on what counts as whitespace, so every
 * trimming function takes the runtime (`Dialect`) whose whitespace it uses.
 */
module Text {

  /** The runtime whose notion of whitespace applies. */
  datatype Dialect = Python | JavaScript

  /** Whitespace shared by Python's `str.isspace` and JavaScript's `trim`. */
  predicate CommonWs(n: int) {
    || 0x09 <= n <= 0x0D        // tab, line feed, vertical tab, form feed, carriage return
    || n == 0x20 || n == 0xA0   // space, no-break space
    || n == 0x1680
    || 0x2000 <= n <= 0x200A
    || n == 0x2028 || n == 0x2029
    || n == 0x202F || n == 0x205F || n == 0x3000
  }

  /** Whitespace as `str.strip()` (Python) or `trim()` (JavaScript) sees it. */
  predicate IsWs(d: Dialect, c: char) {
    var n := c as int;
    match d
    // Python also strips the information separators U+001C..U+001F and NEXT LINE
    case Python => CommonWs(n) || 0x1C <= n <= 0x1F || n == 0x85
    // JavaScript also strips the byte order mark
    case JavaScript => CommonWs(n) || n == 0xFEFF
  }

  predicate AllWs(d: Dialect, s: string) {
    forall i :: 0 <= i < |s| ==> IsWs(d, s[i])
  }

  lemma AllWsAppend(d: Dialect, a: string, b: string)
    requires AllWs(d, a) && AllWs(d, b)
    ensures AllWs(d, a + b)
  {
  }

  /** Neither end of `s` is whitespace: trimming would leave it as it is. */
  predicate Trimmed(d: Dialect, s: string) {
    s == [] || (!IsWs(d, s[0]) && !IsWs(d, s[|s| - 1]))
  }

  /** Number of occurrences of `c` in `s`. */
  function CountChar(s: string, c: char): nat {
    if s == [] then 0 else (if s[0] == c then 1 else 0) + CountChar(s[1..], c)
  }

  lemma {:induction false} CountCharAppend(a: string, b: string, c: char)
    ensures CountChar(a + b, c) == CountChar(a, c) + CountChar(b, c)
  {
    if a == [] {
      assert a + b == b;
    } else {
      assert (a + b)[0] == a[0] && (a + b)[1..] == a[1..] + b;
      CountCharAppend(a[1..], b, c);
    }
  }

  lemma {:induction false} CountCharAbsent(s: string, c: char)
    requires c !in s
    ensures CountChar(s, c) == 0
  {
    if s != [] {
      assert s[0] in s;
      CountCharAbsent(s[1..], c);
    }
  }

  // ---------------------------------------------------------------- trimming

  /** Removes the leading whitespace (see `TrimStartCharacterised`). */
  function TrimStart(d: Dialect, s: string): (r: string)
    ensures |r| <= |s|
  {
    if s != [] && IsWs(d, s[0]) then TrimStart(d, s[1..]) else s
  }

  /** Removes the trailing whitespace (see `TrimEndCharacterised`). */
  function TrimEnd(d: Dialect, s: string): (r: string)
    ensures |r| <= |s|
  {
    if s != [] && IsWs(d, s[|s| - 1]) then TrimEnd(d, s[..|s| - 1]) else s
  }

  /** `TrimStart` leaves a suffix of `s` preceded only by whitespace, and starting with none. */
  lemma {:induction false} TrimStartCharacterised(d: Dialect, s: string)
    ensures var r := TrimStart(d, s);
      && r == s[|s| - |r|..]
      && AllWs(d, s[..|s| - |r|])
      && (r == [] || !IsWs(d, r[0]))
  {
    if s != [] && IsWs(d, s[0]) {
      TrimStartCharacterised(d, s[1..]);
      var r := TrimStart(d, s[1..]);
      assert s[..|s| - |r|] == [s[0]] + s[1..][..|s| - 1 - |r|];
    }
  }

  /** `TrimEnd` leaves a prefix of `s` followed only by whitespace, and ending with none. */
  lemma {:induction false} TrimEndCharacterised(d: Dialect, s: string)
    ensures var r := TrimEnd(d, s);
      && r == s[..|r|]
      && AllWs(d, s[|r|..])
      && (r == [] || !IsWs(d, r[|r| - 1]))
  {
    if s != [] && IsWs(d, s[|s| - 1]) {
      TrimEndCharacterised(d, s[..|s| - 1]);
      var r := TrimEnd(d, s[..|s| - 1]);
      assert s[|r|..] == s[..|s| - 1][|r|..] + [s[|s| - 1]];
    }
  }

  /** How many leading characters `Trim` removes. */
  function TrimOffset(d: Dialect, s: string): nat {
    |s| - |TrimStart(d, s)|
  }

  /**
   * Python's `s.strip()` and JavaScript's `s.trim()`: the factor of `s` left
   * after removing whitespace at both ends. Everything removed is whitespace
   * and what is left starts and ends with a non-whitespace character.
   */
  function Trim(d: Dialect, s: string): string {
    TrimEnd(d, TrimStart(d, s))
  }

  /**
   * What `Trim` removes is whitespace at the two ends, and what it leaves is
   * the factor of `s` between them, which starts and ends with a
   * non-whitespace character.
   */
  lemma TrimCharacterised(d: Dialect, s: string)
    ensures var r, k := Trim(d, s), TrimOffset(d, s);
      && k + |r| <= |s|
      && r == s[k..k + |r|]
      && AllWs(d, s[..k]) && AllWs(d, s[k + |r|..])
      && Trimmed(d, r)
  {
    var t := TrimStart(d, s);
    var r := TrimEnd(d, t);
    TrimStartCharacterised(d, s);
    TrimEndCharacterised(d, t);
    assert s[TrimOffset(d, s) + |r|..] == t[|r|..];
  }

  lemma {:induction false} TrimStartPadded(d: Dialect, a: string, m: string)
    requires AllWs(d, a)
    requires m == [] || !IsWs(d, m[0])
    ensures TrimStart(d, a + m) == m
  {
    if a != [] {
      assert (a + m)[1..] == a[1..] + m;
      TrimStartPadded(d, a[1..], m);
    }
  }

  lemma {:induction false} TrimEndPadded(d: Dialect, m: string, b: string)
    requires AllWs(d, b)
    requires m == [] || !IsWs(d, m[|m| - 1])
    ensures TrimEnd(d, m + b) == m
  {
    if b != [] {
      assert (m + b)[..|m + b| - 1] == m + b[..|b| - 1];
      TrimEndPadded(d, m, b[..|b| - 1]);
    }
  }

  /**
   * Trimming is determined by its characterisation: whitespace around a
   * trimmed core is exactly what `Trim` removes.
   */
  lemma TrimOfPadded(d: Dialect, a: string, m: string, b: string)
    requires AllWs(d, a) && AllWs(d, b) && Trimmed(d, m)
    ensures Trim(d, a + m + b) == m
  {
    if m == [] {
      assert AllWs(d, a + b);
      TrimStartPadded(d, a + b, []);
      assert a + m + b == (a + b) + [];
    } else {
      assert a + m + b == a + (m + b);
      TrimStartPadded(d, a, m + b);
      TrimEndPadded(d, m, b);
    }
  }

  lemma TrimIdempotent(d: Dialect, s: string)
    ensures Trim(d, Trim(d, s)) == Trim(d, s)
  {
    var t := Trim(d, s);
    TrimCharacterised(d, s);
    assert [] + t + [] == t;
    TrimOfPadded(d, [], t, []);
  }

  /** Trimming leaves nothing exactly when the string is all whitespace. */
  lemma TrimEmptyIff(d: Dialect, s: string)
    ensures Trim(d, s) == [] <==> AllWs(d, s)
  {
    var k := TrimOffset(d, s);
    TrimCharacterised(d, s);
    if Trim(d, s) == [] {
      assert s == s[..k] + s[k..];
      AllWsAppend(d, s[..k], s[k..]);
    }
    if AllWs(d, s) {
      assert s + [] + [] == s;
      TrimOfPadded(d, s, [], []);
    }
  }

  /** Trimming removes characters and adds none. */
  lemma TrimIsFactor(d: Dialect, s: string, c: char)
    requires c !in s
    ensures c !in Trim(d, s)
  {
    var k := TrimOffset(d, s);
    var r := Trim(d, s);
    TrimCharacterised(d, s);
    forall i | 0 <= i < |r| ensures r[i] != c {
      assert r[i] == s[k + i];
    }
  }

  // ------------------------------------------------------- splitting, joining

  /** Python's `sep.join(parts)` and JavaScript's `parts.join(sep)`. */
  function Join(parts: seq<string>, sep: string): string {
    if |parts| == 0 then []
    else if |parts| == 1 then parts[0]
    else parts[0] + sep + Join(parts[1..], sep)
  }

  /**
   * Python's `s.split(sep)` and JavaScript's `s.split(sep)` for a one-character
   * separator: one piece more than there are separators, no piece holds the
   * separator, and joining the pieces with it gives back `s`.
   */
  function Split(s: string, sep: char): (parts: seq<string>)
    ensures |parts| == CountChar(s, sep) + 1
    ensures forall i :: 0 <= i < |parts| ==> sep !in parts[i]
    ensures Join(parts, [sep]) == s
  {
    if s == [] then [[]]
    else
      var rest := Split(s[1..], sep);
      if s[0] == sep then
        assert ([[]] + rest)[1..] == rest;
        [[]] + rest
      else
        var parts := [[s[0]] + rest[0]] + rest[1..];
        assert parts[1..] == rest[1..];
        assert |rest| > 1 ==> Join(rest, [sep]) == rest[0] + [sep] + Join(rest[1..], [sep]);
        assert Join(parts, [sep]) == [s[0]] + Join(rest, [sep]);
        parts
  }

  /** Splitting around one separator splits the two sides independently. */
  lemma {:induction false} SplitAround(a: string, b: string, sep: char)
    ensures Split(a + [sep] + b, sep) == Split(a, sep) + Split(b, sep)
  {
    if a == [] {
      assert a + [sep] + b == [sep] + b;
      assert ([sep] + b)[1..] == b;
    } else {
      assert (a + [sep] + b)[1..] == a[1..] + [sep] + b;
      SplitAround(a[1..], b, sep);
    }
  }

  /** A string without the separator is one piece: itself. */
  lemma SplitNoSep(s: string, sep: char)
    requires sep !in s
    ensures Split(s, sep) == [s]
  {
  }

  /** Split undoes Join: separator-free pieces come back as they were. */
  lemma {:induction false} SplitOfJoin(parts: seq<string>, sep: char)
    requires |parts| >= 1
    requires forall i :: 0 <= i < |parts| ==> sep !in parts[i]
    ensures Split(Join(parts, [sep]), sep) == parts
  {
    if |parts| == 1 {
      SplitNoSep(parts[0], sep);
    } else {
      SplitOfJoin(parts[1..], sep);
      SplitNoSep(parts[0], sep);
      SplitAround(parts[0], Join(parts[1..], [sep]), sep);
      assert [parts[0]] + parts[1..] == parts;
    }
  }

  // ------------------------------------------------------ trimmed, non-empty

  /**
   * `[p.strip() for p in parts if p.strip()]` in Python and
   * `parts.map(p => p.trim()).filter(Boolean)` in JavaScript: there are no
   * more of them than parts (see `CompactWellFormed` for what each one is).
   */
  function Compact(d: Dialect, parts: seq<string>): (r: seq<string>)
    ensures |r| <= |parts|
  {
    if parts == [] then []
    else
      var t := Trim(d, parts[0]);
      (if t == [] then [] else [t]) + Compact(d, parts[1..])
  }

  /** Every element Compact keeps is non-empty and trimmed. */
  lemma {:induction false} CompactWellFormed(d: Dialect, parts: seq<string>)
    ensures forall i :: 0 <= i < |Compact(d, parts)| ==> Compact(d, parts)[i] != [] && Trimmed(d, Compact(d, parts)[i])
  {
    if parts != [] {
      CompactWellFormed(d, parts[1..]);
      TrimCharacterised(d, parts[0]);
      var t := Trim(d, parts[0]);
      var r := Compact(d, parts);
      assert r == (if t == [] then [] else [t]) + Compact(d, parts[1..]);
    }
  }

  /** Compact works part by part and keeps the order. */
  lemma {:induction false} CompactAppend(d: Dialect, a: seq<string>, b: seq<string>)
    ensures Compact(d, a + b) == Compact(d, a) + Compact(d, b)
  {
    if a == [] {
      assert a + b == b;
    } else {
      assert (a + b)[0] == a[0];
      assert (a + b)[1..] == a[1..] + b;
      CompactAppend(d, a[1..], b);
      var t := Trim(d, a[0]);
      var head := if t == [] then [] else [t];
      assert Compact(d, a + b) == head + Compact(d, a[1..] + b);
      assert Compact(d, a) == head + Compact(d, a[1..]);
    }
  }

  /** When no part trims to nothing, Compact keeps every part, trimmed, in place. */
  lemma {:induction false} CompactKeepsAll(d: Dialect, parts: seq<string>)
    requires forall j :: 0 <= j < |parts| ==> Trim(d, parts[j]) != []
    ensures |Compact(d, parts)| == |parts|
    ensures forall j :: 0 <= j < |parts| ==> Compact(d, parts)[j] == Trim(d, parts[j])
  {
    if parts != [] {
      CompactKeepsAll(d, parts[1..]);
    }
  }

  /** Parts that are already non-empty and trimmed pass through Compact unchanged. */
  lemma {:induction false} CompactOfFields(d: Dialect, parts: seq<string>)
    requires forall j :: 0 <= j < |parts| ==> parts[j] != [] && Trimmed(d, parts[j])
    ensures Compact(d, parts) == parts
  {
    if parts != [] {
      var p := parts[0];
      assert [] + p + [] == p;
      TrimOfPadded(d, [], p, []);
      CompactOfFields(d, parts[1..]);
      assert [p] + parts[1..] == parts;
    }
  }

  lemma {:induction false} CompactEmptyIff(d: Dialect, parts: seq<string>)
    ensures Compact(d, parts) == [] <==> forall j :: 0 <= j < |parts| ==> AllWs(d, parts[j])
  {
    if parts != [] {
      CompactEmptyIff(d, parts[1..]);
      TrimEmptyIff(d, parts[0]);
      assert forall j :: 1 <= j < |parts| ==> parts[j] == parts[1..][j - 1];
    }
  }

  lemma {:induction false} CompactKeepsAbsent(d: Dialect, parts: seq<string>, c: char)
    requires forall j :: 0 <= j < |parts| ==> c !in parts[j]
    ensures forall i :: 0 <= i < |Compact(d, parts)| ==> c !in Compact(d, parts)[i]
  {
    if parts != [] {
      TrimIsFactor(d, parts[0], c);
      CompactKeepsAbsent(d, parts[1..], c);
    }
  }

  // ------------------------------------------------------------------ fields

  /**
   * The trimmed, non-empty `sep`-separated fields of `s`, in order: each is
   * non-empty, has no whitespace at either end and holds no separator.
   */
  function Fields(d: Dialect, s: string, sep: char): (r: seq<string>)
    ensures |r| <= CountChar(s, sep) + 1
    ensures forall i :: 0 <= i < |r| ==> r[i] != [] && Trimmed(d, r[i]) && sep !in r[i]
  {
    var parts := Split(s, sep);
    CompactKeepsAbsent(d, parts, sep);
    CompactWellFormed(d, parts);
    Compact(d, parts)
  }

  /** The fields on the two sides of a separator are found independently. */
  lemma FieldsAround(d: Dialect, a: string, b: string, sep: char)
    ensures Fields(d, a + [sep] + b, sep) == Fields(d, a, sep) + Fields(d, b, sep)
  {
    SplitAround(a, b, sep);
    CompactAppend(d, Split(a, sep), Split(b, sep));
  }

  /** A separator-free string is one field, or none when it is all whitespace. */
  lemma FieldsSingle(d: Dialect, s: string, sep: char)
    requires sep !in s
    ensures Fields(d, s, sep) == if AllWs(d, s) then [] else [Trim(d, s)]
  {
    SplitNoSep(s, sep);
    assert [s][1..] == [];
    TrimEmptyIff(d, s);
  }

  /** The fields of joined parts are those parts, trimmed, without the blank ones. */
  lemma FieldsOfJoin(d: Dialect, parts: seq<string>, sep: char)
    requires |parts| >= 1
    requires forall i :: 0 <= i < |parts| ==> sep !in parts[i]
    ensures Fields(d, Join(parts, [sep]), sep) == Compact(d, parts)
  {
    SplitOfJoin(parts, sep);
  }

  /** `s` holds nothing but separators and whitespace. */
  predicate Blank(d: Dialect, s: string, sep: char) {
    forall i :: 0 <= i < |s| ==> s[i] == sep || IsWs(d, s[i])
  }

  lemma BlankAround(d: Dialect, a: string, b: string, sep: char)
    ensures Blank(d, a + [sep] + b, sep) <==> Blank(d, a, sep) && Blank(d, b, sep)
  {
    var s := a + [sep] + b;
    assert forall i :: 0 <= i < |a| ==> s[i] == a[i];
    assert forall i :: 0 <= i < |b| ==> s[|a| + 1 + i] == b[i];
    if Blank(d, a, sep) && Blank(d, b, sep) {
      forall i | 0 <= i < |s| ensures s[i] == sep || IsWs(d, s[i]) {
        if i < |a| { assert s[i] == a[i]; } else if i > |a| { assert s[i] == b[i - |a| - 1]; }
      }
    }
  }

  /** There are no fields exactly when `s` holds only separators and whitespace. */
  lemma {:induction false} FieldsEmptyIff(d: Dialect, s: string, sep: char)
    ensures Fields(d, s, sep) == [] <==> Blank(d, s, sep)
    decreases |s|
  {
    if sep !in s {
      FieldsSingle(d, s, sep);
      assert Blank(d, s, sep) <==> AllWs(d, s);
    } else {
      var k :| 0 <= k < |s| && s[k] == sep;
      var a, b := s[..k], s[k + 1..];
      assert s == a + [sep] + b;
      FieldsAround(d, a, b, sep);
      FieldsEmptyIff(d, a, sep);
      FieldsEmptyIff(d, b, sep);
      BlankAround(d, a, b, sep);
    }
  }
}
