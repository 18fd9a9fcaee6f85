/**
 * The PHP string built-ins the scripts rely on, with PHP's own semantics:
 * truthiness of strings, `strpos`, `explode`/`implode`, `str_replace` with an
 * empty replacement, `trim`, `preg_split('/\s+/', ...)`, the `(int)` cast,
 * decimal formatting of integers and `basename`.
 */
module PhpText {
  import opened Wrappers

  /** PHP truthiness of a string: exactly "" and "0" are falsy. */
  predicate Truthy(s: string) {
    s != "" && s != "0"
  }

  predicate StartsWith(s: string, prefix: string) {
    |prefix| <= |s| && s[..|prefix|] == prefix
  }

  /** `sub` occurs in `s` starting at offset `i`. */
  predicate OccursAt(s: string, sub: string, i: nat) {
    i + |sub| <= |s| && s[i..i + |sub|] == sub
  }

  predicate Contains(s: string, sub: string) {
    exists i: nat :: i <= |s| && OccursAt(s, sub, i)
  }

  /** The first occurrence of `sub` in `s` at or after offset `k`. */
  function IndexFrom(s: string, sub: string, k: nat): (r: Option<nat>)
    requires k <= |s|
    ensures r.Some? ==> k <= r.value && OccursAt(s, sub, r.value)
    ensures r.Some? ==> forall j: nat :: k <= j < r.value ==> !OccursAt(s, sub, j)
    ensures r.None? ==> forall j: nat :: k <= j ==> !OccursAt(s, sub, j)
    decreases |s| - k
  {
    if OccursAt(s, sub, k) then Some(k)
    else if k == |s| then None
    else IndexFrom(s, sub, k + 1)
  }

  /**
   * `strpos($s, $sub)` for a non-empty needle: the offset of the first
   * occurrence, `None` for PHP's `false`.
   */
  function StrPos(s: string, sub: string): (r: Option<nat>)
    ensures r.Some? <==> Contains(s, sub)
    ensures r.Some? ==> OccursAt(s, sub, r.value) && forall j: nat :: j < r.value ==> !OccursAt(s, sub, j)
  {
    IndexFrom(s, sub, 0)
  }

  /** `explode($sep, $s)` with no limit; PHP rejects an empty separator. */
  function Explode(s: string, sep: string): (parts: seq<string>)
    requires sep != ""
    ensures |parts| >= 1
    decreases |s|
  {
    match StrPos(s, sep)
    case None => [s]
    case Some(i) => [s[..i]] + Explode(s[i + |sep|..], sep)
  }

  /** `implode($glue, $parts)`. */
  function Implode(parts: seq<string>, glue: string): string
    decreases |parts|
  {
    if |parts| == 0 then ""
    else if |parts| == 1 then parts[0]
    else parts[0] + glue + Implode(parts[1..], glue)
  }

  /** `str_replace($search, '', $s)`: one left-to-right pass deleting every occurrence. */
  function RemoveAll(s: string, search: string): string
    requires search != ""
  {
    Implode(Explode(s, search), "")
  }

  lemma ImplodeCons(head: string, tail: seq<string>, glue: string)
    requires tail != []
    ensures Implode([head] + tail, glue) == head + glue + Implode(tail, glue)
  {
    assert ([head] + tail)[1..] == tail;
  }

  /** Cutting a string around an occurrence of `sep` and gluing it back with `sep` gives the string. */
  lemma GlueAround(s: string, sep: string, i: nat)
    requires OccursAt(s, sep, i)
    ensures s[..i] + sep + s[i + |sep|..] == s
  {
    assert s[i..i + |sep|] == sep;
  }

  lemma {:induction false} ImplodeExplode(s: string, sep: string)
    requires sep != ""
    ensures Implode(Explode(s, sep), sep) == s
    decreases |s|
  {
    if StrPos(s, sep).Some? {
      var i := StrPos(s, sep).value;
      var rest := s[i + |sep|..];
      ImplodeExplode(rest, sep);
      var tail := Explode(rest, sep);
      assert Explode(s, sep) == [s[..i]] + tail;
      ImplodeCons(s[..i], tail, sep);
      GlueAround(s, sep, i);
    }
  }

  lemma {:induction false} ExplodePartsFree(s: string, sep: string)
    requires sep != ""
    ensures forall k :: 0 <= k < |Explode(s, sep)| ==> !Contains(Explode(s, sep)[k], sep)
    decreases |s|
  {
    match StrPos(s, sep)
    case None =>
    case Some(i) =>
      var rest := s[i + |sep|..];
      ExplodePartsFree(rest, sep);
      forall j: nat | j <= i
        ensures !OccursAt(s[..i], sep, j)
      {
        if j + |sep| <= i {
          assert !OccursAt(s, sep, j);
          assert s[..i][j..j + |sep|] == s[j..j + |sep|];
        }
      }
  }

  lemma ExplodeSingle(s: string, sep: string)
    requires sep != "" && !Contains(s, sep)
    ensures Explode(s, sep) == [s]
  {
  }

  /** `explode` has at least two parts exactly when the separator occurs. */
  lemma ExplodeSplits(s: string, sep: string)
    requires sep != ""
    ensures |Explode(s, sep)| >= 2 <==> Contains(s, sep)
    ensures Contains(s, sep) ==>
      var i := StrPos(s, sep).value;
      Explode(s, sep)[0] == s[..i] && Explode(s, sep)[1] == Explode(s[i + |sep|..], sep)[0]
  {
  }

  /** The first part of `explode($sep, $s)` is the text before the first separator, or all of `s`. */
  lemma ExplodeHead(s: string, sep: string)
    requires sep != ""
    ensures StrPos(s, sep).None? ==> Explode(s, sep)[0] == s
    ensures StrPos(s, sep).Some? ==> Explode(s, sep)[0] == s[..StrPos(s, sep).value]
  {
  }

  /** A piece that does not contain `sep`, followed by `sep`, is split off cleanly. */
  predicate SplitsCleanly(piece: string, sep: string) {
    StrPos(piece + sep, sep) == Some(|piece|)
  }

  lemma FirstOccurrenceExtends(a: string, b: string, sep: string)
    requires StrPos(a, sep).Some? && StrPos(a, sep).value + |sep| <= |a|
    ensures StrPos(a + b, sep) == StrPos(a, sep)
  {
    var i := StrPos(a, sep).value;
    assert (a + b)[i..i + |sep|] == a[i..i + |sep|];
    assert OccursAt(a + b, sep, i);
    assert Contains(a + b, sep);
    forall j: nat | j < i
      ensures !OccursAt(a + b, sep, j)
    {
      assert !OccursAt(a, sep, j);
      assert (a + b)[j..j + |sep|] == a[j..j + |sep|];
    }
    var r := StrPos(a + b, sep).value;
    assert !(r < i);
    assert !(i < r);
  }

  /** A one-character separator splits off cleanly after any piece that does not contain it. */
  lemma SingleCharSplitsCleanly(piece: string, sep: string)
    requires |sep| == 1 && !Contains(piece, sep)
    ensures SplitsCleanly(piece, sep)
  {
    var s := piece + sep;
    assert s[|piece|..|piece| + 1] == sep;
    assert OccursAt(s, sep, |piece|);
    assert Contains(s, sep);
    forall j: nat | j < |piece|
      ensures !OccursAt(s, sep, j)
    {
      assert !OccursAt(piece, sep, j);
      assert s[j..j + 1] == piece[j..j + 1];
    }
  }

  /** A string none of whose characters starts `sub` does not contain it. */
  lemma FirstCharAbsent(s: string, sub: string)
    requires sub != "" && forall k :: 0 <= k < |s| ==> s[k] != sub[0]
    ensures !Contains(s, sub)
  {
    forall i: nat | i <= |s| ensures !OccursAt(s, sub, i) {
      if i + |sub| <= |s| {
        assert s[i..i + |sub|][0] == s[i];
      }
    }
  }

  /**
   * A separator whose first character occurs nowhere else in it splits off
   * cleanly after any piece that does not contain it: no occurrence can
   * straddle the join.
   */
  lemma UniqueHeadSplitsCleanly(piece: string, sep: string)
    requires sep != "" && !Contains(piece, sep)
    requires forall k :: 1 <= k < |sep| ==> sep[k] != sep[0]
    ensures SplitsCleanly(piece, sep)
  {
    var s := piece + sep;
    assert s[|piece|..|piece| + |sep|] == sep;
    assert OccursAt(s, sep, |piece|);
    forall j: nat | j < |piece|
      ensures !OccursAt(s, sep, j)
    {
      if j + |sep| <= |piece| {
        assert s[j..j + |sep|] == piece[j..j + |sep|];
        assert !OccursAt(piece, sep, j);
      } else if j + |sep| <= |s| {
        var m := |piece| - j;
        assert s[j..j + |sep|][m] == s[|piece|] == sep[0];
      }
    }
  }

  /** A piece that splits off cleanly is the first part of what follows it. */
  lemma ExplodeAfterCleanPiece(piece: string, rest: string, sep: string)
    requires sep != "" && SplitsCleanly(piece, sep)
    ensures Explode(piece + sep + rest, sep) == [piece] + Explode(rest, sep)
  {
    var s := piece + sep + rest;
    FirstOccurrenceExtends(piece + sep, rest, sep);
    assert StrPos(s, sep) == Some(|piece|);
    assert s[..|piece|] == piece;
    assert s[|piece| + |sep|..] == rest;
  }

  /** Exploding an imploded list gives the list back when each piece splits off cleanly. */
  lemma {:induction false} ExplodeImplode(parts: seq<string>, sep: string)
    requires sep != "" && |parts| >= 1
    requires forall k :: 0 <= k < |parts| - 1 ==> SplitsCleanly(parts[k], sep)
    requires !Contains(parts[|parts| - 1], sep)
    ensures Explode(Implode(parts, sep), sep) == parts
    decreases |parts|
  {
    if |parts| == 1 {
      ExplodeSingle(parts[0], sep);
    } else {
      var tail := parts[1..];
      forall k | 0 <= k < |tail| - 1
        ensures SplitsCleanly(tail[k], sep)
      {
        assert tail[k] == parts[k + 1];
      }
      assert tail[|tail| - 1] == parts[|parts| - 1];
      ExplodeImplode(tail, sep);
      ExplodeAfterCleanPiece(parts[0], Implode(tail, sep), sep);
      assert parts == [parts[0]] + tail;
    }
  }

  /** `str_replace` on a string that starts with the search text and never contains it afterwards. */
  lemma RemoveLeading(prefix: string, rest: string)
    requires prefix != "" && !Contains(rest, prefix)
    ensures RemoveAll(prefix + rest, prefix) == rest
  {
    var s := prefix + rest;
    assert OccursAt(s, prefix, 0);
    assert Contains(s, prefix);
    assert StrPos(s, prefix).value == 0;
    assert s[|prefix|..] == rest;
    ExplodeSingle(rest, prefix);
    assert s[..0] == "";
    assert Explode(s, prefix) == [""] + [rest];
    assert Implode([""] + [rest], "") == "" + "" + Implode([rest], "");
  }

  // ---------------------------------------------------------------------------
  // Whitespace: trim() and preg_split('/\s+/', ...)
  // ---------------------------------------------------------------------------

  /** The characters PHP's `trim` strips by default: space, \t, \n, \r, \0, \x0B. */
  predicate IsTrimChar(c: char) {
    c == ' ' || c == '\t' || c == '\n' || c == '\r' || c == '\0' || c as int == 11
  }

  /** The characters PCRE's `\s` matches without the `u` flag: space, \t, \n, \x0B, \f, \r. */
  predicate IsPcreSpace(c: char) {
    c == ' ' || c == '\t' || c == '\n' || c == '\r' || c as int == 11 || c as int == 12
  }

  function TrimLeft(s: string): (r: string)
    ensures |r| <= |s| && r == s[|s| - |r|..]
    ensures r == "" || !IsTrimChar(r[0])
    ensures forall k :: 0 <= k < |s| - |r| ==> IsTrimChar(s[k])
  {
    if |s| > 0 && IsTrimChar(s[0]) then TrimLeft(s[1..]) else s
  }

  function TrimRight(s: string): (r: string)
    ensures |r| <= |s| && r == s[..|r|]
    ensures r == "" || !IsTrimChar(r[|r| - 1])
    ensures forall k :: |r| <= k < |s| ==> IsTrimChar(s[k])
  {
    if |s| > 0 && IsTrimChar(s[|s| - 1]) then TrimRight(s[..|s| - 1]) else s
  }

  /**
   * PHP's `trim`: the text between a run of trim characters at the start and
   * one at the end, itself neither starting nor ending with one.
   */
  function Trim(s: string): (r: string)
    ensures r == "" || (!IsTrimChar(r[0]) && !IsTrimChar(r[|r| - 1]))
    ensures exists i :: TrimmedAt(s, r, i)
  {
    var left := TrimLeft(s);
    var r := TrimRight(left);
    assert TrimmedAt(s, r, |s| - |left|);
    r
  }

  /** `r` is `s` from `i` on, with only trim characters cut at either end. */
  predicate TrimmedAt(s: string, r: string, i: int) {
    && 0 <= i && i + |r| <= |s| && r == s[i..i + |r|]
    && (forall k :: 0 <= k < i ==> IsTrimChar(s[k]))
    && (forall k :: i + |r| <= k < |s| ==> IsTrimChar(s[k]))
  }

  /**
   * `preg_split('/\s+/', $s)`: the pieces between maximal runs of whitespace,
   * with an empty first (last) piece when `s` starts (ends) with whitespace.
   */
  function SplitWs(s: string): (tokens: seq<string>)
    ensures |tokens| >= 1
    ensures forall k, j :: 0 <= k < |tokens| && 0 <= j < |tokens[k]| ==> !IsPcreSpace(tokens[k][j])
    decreases |s|
  {
    if s == [] then [""]
    else
      var rest := SplitWs(s[1..]);
      if !IsPcreSpace(s[0]) then [[s[0]] + rest[0]] + rest[1..]
      else if |s| > 1 && IsPcreSpace(s[1]) then rest
      else [""] + rest
  }

  /** A run of whitespace before a text that does not start with whitespace splits off one empty piece. */
  lemma {:induction false} SplitWsRun(ws: string, b: string)
    requires ws != [] && forall k :: 0 <= k < |ws| ==> IsPcreSpace(ws[k])
    requires b == [] || !IsPcreSpace(b[0])
    ensures SplitWs(ws + b) == [""] + SplitWs(b)
    decreases |ws|
  {
    var s := ws + b;
    assert s[1..] == ws[1..] + b;
    if |ws| > 1 {
      assert s[1] == ws[1];
      SplitWsRun(ws[1..], b);
    } else {
      assert s[1..] == b;
    }
  }

  /**
   * A whitespace-free text, a run of whitespace and a text that does not
   * start with whitespace: the first text is the first piece, and the rest
   * splits as the last text alone.
   */
  lemma {:induction false} SplitWsJoin(a: string, ws: string, b: string)
    requires forall k :: 0 <= k < |a| ==> !IsPcreSpace(a[k])
    requires ws != [] && forall k :: 0 <= k < |ws| ==> IsPcreSpace(ws[k])
    requires b == [] || !IsPcreSpace(b[0])
    ensures SplitWs(a + ws + b) == [a] + SplitWs(b)
    decreases |a|
  {
    if a == [] {
      assert a + ws + b == ws + b;
      SplitWsRun(ws, b);
    } else {
      var s := a + ws + b;
      assert s[1..] == a[1..] + ws + b;
      SplitWsJoin(a[1..], ws, b);
      assert [a[0]] + a[1..] == a;
    }
  }

  /** A text is a class-list token: non-empty, with no whitespace and nothing `trim` strips. */
  predicate IsPlainToken(t: string) {
    t != [] && forall k :: 0 <= k < |t| ==> !IsPcreSpace(t[k]) && !IsTrimChar(t[k])
  }

  /** Joined pieces are at least as long as each piece. */
  lemma {:induction false} ImplodeHoldsEachPart(parts: seq<string>, glue: string, j: nat)
    requires j < |parts|
    ensures |Implode(parts, glue)| >= |parts[j]|
    decreases |parts|
  {
    if |parts| > 1 && j > 0 {
      assert parts[1..][j - 1] == parts[j];
      ImplodeHoldsEachPart(parts[1..], glue, j - 1);
    }
  }

  /** Plain tokens joined by single spaces split back into exactly those tokens. */
  lemma {:induction false} SplitWsImplode(tokens: seq<string>)
    requires tokens != [] && forall j :: 0 <= j < |tokens| ==> IsPlainToken(tokens[j])
    ensures SplitWs(Implode(tokens, " ")) == tokens
    decreases |tokens|
  {
    if |tokens| == 1 {
      SplitWsNoSpace(tokens[0]);
    } else {
      var rest := tokens[1..];
      assert forall j :: 0 <= j < |rest| ==> rest[j] == tokens[j + 1];
      SplitWsImplode(rest);
      assert forall j :: 0 <= j < |tokens| ==> tokens[j] != [];
      ImplodeStartsWithFirst(rest, " ");
      SplitWsJoin(tokens[0], " ", Implode(rest, " "));
      assert [tokens[0]] + rest == tokens;
    }
  }

  /** Joined non-empty pieces start with the first piece's first character and end with the last's last one. */
  lemma {:induction false} ImplodeStartsWithFirst(parts: seq<string>, glue: string)
    requires parts != [] && forall j :: 0 <= j < |parts| ==> parts[j] != []
    ensures Implode(parts, glue) != []
    ensures Implode(parts, glue)[0] == parts[0][0]
    ensures Implode(parts, glue)[|Implode(parts, glue)| - 1] == parts[|parts| - 1][|parts[|parts| - 1]| - 1]
    decreases |parts|
  {
    if |parts| > 1 {
      var rest := parts[1..];
      assert forall j :: 0 <= j < |rest| ==> rest[j] == parts[j + 1];
      ImplodeStartsWithFirst(rest, glue);
    }
  }

  /** A token without whitespace is split into itself. */
  lemma SplitWsNoSpace(s: string)
    requires forall k :: 0 <= k < |s| ==> !IsPcreSpace(s[k])
    ensures SplitWs(s) == [s]
  {
    if s != [] {
      SplitWsNoSpace(s[1..]);
      assert [s[0]] + s[1..] == s;
    }
  }

  /** `trim` leaves a string alone whose ends are not trim characters. */
  lemma TrimNoop(s: string)
    requires s == "" || (!IsTrimChar(s[0]) && !IsTrimChar(s[|s| - 1]))
    ensures Trim(s) == s
  {
  }

  // ---------------------------------------------------------------------------
  // Integers: the (int) cast and decimal formatting
  // ---------------------------------------------------------------------------

  predicate IsDigit(c: char) {
    '0' <= c <= '9'
  }

  predicate AllDigits(s: string) {
    forall k :: 0 <= k < |s| ==> IsDigit(s[k])
  }

  /** The longest prefix of `s` made of decimal digits. */
  function LeadingDigits(s: string): (d: string)
    ensures AllDigits(d) && StartsWith(s, d)
    ensures |d| < |s| ==> !IsDigit(s[|d|])
  {
    if |s| > 0 && IsDigit(s[0]) then [s[0]] + LeadingDigits(s[1..]) else ""
  }

  function DigitValue(c: char): nat
    requires IsDigit(c)
  {
    (c as int) - ('0' as int)
  }

  /** The value of a string of decimal digits ("" reads as 0). */
  function DigitsValue(d: string): nat
    requires AllDigits(d)
    decreases |d|
  {
    if d == "" then 0 else DigitsValue(d[..|d| - 1]) * 10 + DigitValue(d[|d| - 1])
  }

  /** The whitespace `(int)` skips before the number: space, \t, \n, \r, \x0B, \f. */
  function SkipNumericSpace(s: string): (r: string)
    ensures r == "" || !IsPcreSpace(r[0])
  {
    if |s| > 0 && IsPcreSpace(s[0]) then SkipNumericSpace(s[1..]) else s
  }

  /**
   * PHP's `(int)` cast of a string: leading whitespace, an optional sign and
   * the leading decimal digits; 0 when there are none.
   */
  function IntCast(s: string): int {
    var t := SkipNumericSpace(s);
    if |t| > 0 && t[0] == '-' then -(DigitsValue(LeadingDigits(t[1..])) as int)
    else if |t| > 0 && t[0] == '+' then DigitsValue(LeadingDigits(t[1..]))
    else DigitsValue(LeadingDigits(t))
  }

  /** `(int)` gives 0 for text that does not start with a digit, a sign or whitespace. */
  lemma IntCastNoNumber(s: string)
    requires s == "" || (!IsDigit(s[0]) && !IsPcreSpace(s[0]) && s[0] != '-' && s[0] != '+')
    ensures IntCast(s) == 0
  {
  }

  function DigitChar(n: nat): (c: char)
    requires n < 10
    ensures IsDigit(c) && DigitValue(c) == n
  {
    (('0' as int) + n) as char
  }

  /** Decimal text of a natural number, without leading zeros. */
  function NatToString(n: nat): (s: string)
    ensures AllDigits(s) && |s| >= 1
    decreases n
  {
    if n < 10 then [DigitChar(n)] else NatToString(n / 10) + [DigitChar(n % 10)]
  }

  /** PHP's conversion of an integer to a string, as `fputcsv` and `sprintf('%s')` write it. */
  function IntToString(i: int): (s: string)
    ensures |s| >= 1
  {
    if i < 0 then "-" + NatToString(-i) else NatToString(i)
  }

  lemma {:induction false} DigitsValueOfNat(n: nat)
    ensures DigitsValue(NatToString(n)) == n
    decreases n
  {
    if n >= 10 {
      DigitsValueOfNat(n / 10);
      var s := NatToString(n);
      assert s[..|s| - 1] == NatToString(n / 10);
    }
  }

  lemma LeadingDigitsAll(s: string)
    requires AllDigits(s)
    ensures LeadingDigits(s) == s
  {
    if |s| > 0 {
      LeadingDigitsAll(s[1..]);
    }
  }

  /** Reading back what was written: `(int)(string)$i === $i`. */
  lemma IntCastRoundTrip(i: int)
    ensures IntCast(IntToString(i)) == i
  {
    var d := NatToString(if i < 0 then -i else i);
    LeadingDigitsAll(d);
    DigitsValueOfNat(if i < 0 then -i else i);
    if i < 0 {
      var s := "-" + d;
      assert SkipNumericSpace(s) == s;
      assert s[1..] == d;
    } else {
      assert SkipNumericSpace(d) == d;
    }
  }

  // ---------------------------------------------------------------------------
  // Paths: basename()
  // ---------------------------------------------------------------------------

  function StripTrailingSlashes(p: string): (r: string)
    ensures r == "" || r[|r| - 1] != '/'
    ensures |r| <= |p| && r == p[..|r|]
    ensures forall k :: |r| <= k < |p| ==> p[k] == '/'
  {
    if |p| > 0 && p[|p| - 1] == '/' then StripTrailingSlashes(p[..|p| - 1]) else p
  }

  /** `r` is a suffix of `p`. */
  predicate EndsWith(p: string, r: string) {
    |r| <= |p| && p[|p| - |r|..] == r
  }

  /** The text after the last '/' (all of `p` when there is none). */
  function AfterLastSlash(p: string): (r: string)
    ensures '/' !in r
    ensures EndsWith(p, r)
    ensures |r| < |p| ==> p[|p| - |r| - 1] == '/'
    decreases |p|
  {
    if p == "" then ""
    else if p[|p| - 1] == '/' then ""
    else
      var init := p[..|p| - 1];
      var before := AfterLastSlash(init);
      assert init[|init| - |before|..] + [p[|p| - 1]] == p[|p| - |before| - 1..];
      before + [p[|p| - 1]]
  }

  /** PHP's `basename` on '/'-separated paths: the last component, trailing slashes ignored. */
  function Basename(p: string): string {
    AfterLastSlash(StripTrailingSlashes(p))
  }

  lemma {:induction false} AfterLastSlashOf(dir: string, name: string)
    requires '/' !in name
    ensures AfterLastSlash(dir + "/" + name) == name
    decreases |name|
  {
    var p := dir + "/" + name;
    if name == "" {
      assert p[|p| - 1] == '/';
    } else {
      var shorter := name[..|name| - 1];
      assert p[..|p| - 1] == dir + "/" + shorter;
      assert '/' !in shorter by {
        forall k | 0 <= k < |shorter| ensures shorter[k] != '/' { assert shorter[k] == name[k]; }
      }
      AfterLastSlashOf(dir, shorter);
      assert shorter + [p[|p| - 1]] == name;
    }
  }

  /** The basename of `dir/name` is `name` when `name` is a single, non-empty path component. */
  lemma BasenameOfFile(dir: string, name: string)
    requires name != "" && '/' !in name
    ensures Basename(dir + "/" + name) == name
  {
    var p := dir + "/" + name;
    assert p[|p| - 1] == name[|name| - 1];
    assert StripTrailingSlashes(p) == p;
    AfterLastSlashOf(dir, name);
  }

  /** `basename` of a directory path with one trailing slash is its last component. */
  lemma BasenameOfDir(dir: string, name: string)
    requires name != "" && '/' !in name
    ensures Basename(dir + "/" + name + "/") == name
  {
    var p := dir + "/" + name;
    assert (p + "/")[..|p + "/"| - 1] == p;
    assert p[|p| - 1] == name[|name| - 1];
    assert StripTrailingSlashes(p) == p;
    AfterLastSlashOf(dir, name);
  }
}
