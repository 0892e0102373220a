/** Values and string/list operations shared by the routes and components:
    the JavaScript built-ins they rely on (`startsWith`, `trim`, `split`,
    `join`, `filter`, `find`), stated once. */
module Prelude {

  datatype Option<+T> = None | Some(value: T)

  /** JavaScript truthiness of a field that may be absent: absent and "" are falsy. */
  predicate Truthy(field: Option<string>) {
    field.Some? && field.value != ""
  }

  /** `field || ""` */
  function OrEmpty(field: Option<string>): (r: string)
    ensures Truthy(field) ==> r == field.value
    ensures !Truthy(field) ==> r == ""
  {
    if Truthy(field) then field.value else ""
  }

  // ---------------------------------------------------------------- strings

  /** `s.startsWith(prefix)` */
  function StartsWith(s: string, prefix: string): (r: bool)
    ensures r <==> |prefix| <= |s| && s[..|prefix|] == prefix
  {
    if prefix == [] then true
    else if s == [] then false
    else
      assert |prefix| <= |s| ==> s[..|prefix|] == [s[0]] + s[1..][..|prefix| - 1];
      s[0] == prefix[0] && StartsWith(s[1..], prefix[1..])
  }

  /** The characters JavaScript's `trim` removes: WhiteSpace and LineTerminator
      code points (tab, line feed, vertical tab, form feed, carriage return,
      space, no-break space, the Unicode space separators, line and paragraph
      separators, and the byte order mark). */
  predicate IsWhitespace(c: char) {
    || c == '\t' || c == '\n' || c == '\U{000B}' || c == '\U{000C}' || c == '\r'
    || c == ' ' || c == '\U{00A0}' || c == '\U{1680}'
    || ('\U{2000}' <= c <= '\U{200A}')
    || c == '\U{2028}' || c == '\U{2029}' || c == '\U{202F}' || c == '\U{205F}'
    || c == '\U{3000}' || c == '\U{FEFF}'
  }

  /** No whitespace at either end: what `trim` leaves. */
  predicate IsTrimmed(s: string) {
    s == [] || (!IsWhitespace(s[0]) && !IsWhitespace(s[|s| - 1]))
  }

  /** Drops exactly the leading run of whitespace. */
  function TrimStart(s: string): (r: string)
    ensures |r| <= |s| && r == s[|s| - |r|..]
    ensures forall k :: 0 <= k < |s| - |r| ==> IsWhitespace(s[k])
    ensures r == [] || !IsWhitespace(r[0])
  {
    if s != [] && IsWhitespace(s[0]) then TrimStart(s[1..]) else s
  }

  /** Drops exactly the trailing run of whitespace. */
  function TrimEnd(s: string): (r: string)
    ensures |r| <= |s| && r == s[..|r|]
    ensures forall k :: |r| <= k < |s| ==> IsWhitespace(s[k])
    ensures r == [] || !IsWhitespace(r[|r| - 1])
  {
    if s != [] && IsWhitespace(s[|s| - 1]) then TrimEnd(s[..|s| - 1]) else s
  }

  /** `r` is `s[a..b]`, and everything of `s` before `a` and from `b` on is whitespace. */
  predicate MiddleOf(s: string, r: string, a: int, b: int) {
    && 0 <= a <= b <= |s| && r == s[a..b]
    && (forall k :: 0 <= k < a ==> IsWhitespace(s[k]))
    && (forall k :: b <= k < |s| ==> IsWhitespace(s[k]))
  }

  /** Dropping a whitespace prefix and then a whitespace suffix leaves a middle of `s`. */
  lemma MiddleAfterDrops(s: string, t: string, r: string)
    requires |t| <= |s| && t == s[|s| - |t|..]
    requires forall k :: 0 <= k < |s| - |t| ==> IsWhitespace(s[k])
    requires |r| <= |t| && r == t[..|r|]
    requires forall k :: |r| <= k < |t| ==> IsWhitespace(t[k])
    ensures MiddleOf(s, r, |s| - |t|, |s| - |t| + |r|)
  {
    var a := |s| - |t|;
    assert forall k :: a + |r| <= k < |s| ==> s[k] == t[k - a];
  }

  /** `s.trim()`: the middle of `s` left once the whitespace runs at both ends are dropped. */
  function Trim(s: string): (r: string)
    ensures IsTrimmed(r)
    ensures |r| <= |s|
    ensures exists a, b :: MiddleOf(s, r, a, b)
  {
    var t := TrimStart(s);
    var r := TrimEnd(t);
    assert r != [] ==> r[0] == t[0];
    MiddleAfterDrops(s, t, r);
    r
  }

  /** A string that has nothing to trim is left as it is. */
  lemma TrimTrimmed(s: string)
    requires IsTrimmed(s)
    ensures Trim(s) == s
  {
  }

  /** Trimming is idempotent. */
  lemma TrimIdempotent(s: string)
    ensures Trim(Trim(s)) == Trim(s)
  {
    TrimTrimmed(Trim(s));
  }

  /** One leading space does not survive a trim. */
  lemma TrimLeadingSpace(s: string)
    ensures Trim(" " + s) == Trim(s)
  {
    assert (" " + s)[1..] == s;
  }

  function Count(s: string, c: char): (n: nat)
    ensures n <= |s|
  {
    if s == [] then 0 else (if s[0] == c then 1 else 0) + Count(s[1..], c)
  }

  /** `s.split(sep)` for a one-character separator; `"".split(sep)` is `[""]`. */
  function Split(s: string, sep: char): (pieces: seq<string>)
    ensures |pieces| == Count(s, sep) + 1
    ensures forall i :: 0 <= i < |pieces| ==> sep !in pieces[i]
  {
    if s == [] then [""]
    else
      var rest := Split(s[1..], sep);
      if s[0] == sep then [""] + rest
      else [[s[0]] + rest[0]] + rest[1..]
  }

  /** `pieces.join(sep)` */
  function Join(pieces: seq<string>, sep: string): string {
    if |pieces| == 0 then ""
    else if |pieces| == 1 then pieces[0]
    else pieces[0] + sep + Join(pieces[1..], sep)
  }

  /** Joining the pieces of a split with the same separator gives the input back. */
  lemma {:induction false} JoinSplit(s: string, sep: char)
    ensures Join(Split(s, sep), [sep]) == s
  {
    if s != [] {
      var rest := Split(s[1..], sep);
      JoinSplit(s[1..], sep);
      if s[0] == sep {
        assert Split(s, sep) == [""] + rest;
        assert Join(Split(s, sep), [sep]) == "" + [sep] + Join(rest, [sep]);
      } else if |rest| == 1 {
        assert Split(s, sep) == [[s[0]] + rest[0]];
      } else {
        var pieces := Split(s, sep);
        assert pieces == [[s[0]] + rest[0]] + rest[1..];
        assert pieces[1..] == rest[1..];
        assert Join(rest, [sep]) == rest[0] + [sep] + Join(rest[1..], [sep]);
      }
    }
  }

  /** Splitting `a + b`, where `a` holds no separator, glues `a` onto the first piece of `b`. */
  lemma {:induction false} SplitPrefix(a: string, b: string, sep: char)
    requires sep !in a
    ensures Split(a + b, sep) == [a + Split(b, sep)[0]] + Split(b, sep)[1..]
  {
    var pieces := Split(b, sep);
    if a == [] {
      assert a + b == b;
      assert a + pieces[0] == pieces[0];
      assert [pieces[0]] + pieces[1..] == pieces;
    } else {
      assert (a + b)[1..] == a[1..] + b;
      SplitPrefix(a[1..], b, sep);
      assert [a[0]] + (a[1..] + Split(b, sep)[0]) == a + Split(b, sep)[0];
    }
  }

  /** Splitting a join (with the separator character) of separator-free pieces gives the pieces back. */
  lemma {:induction false} SplitJoin(pieces: seq<string>, sep: char)
    requires |pieces| >= 1
    requires forall i :: 0 <= i < |pieces| ==> sep !in pieces[i]
    ensures Split(Join(pieces, [sep]), sep) == pieces
  {
    if |pieces| == 1 {
      SplitPrefix(pieces[0], "", sep);
      assert pieces[0] + "" == pieces[0];
    } else {
      var first, rest := pieces[0], pieces[1..];
      var tail := Join(rest, [sep]);
      var b := [sep] + tail;
      assert Split(tail, sep) == rest by {
        SplitJoin(rest, sep);
      }
      assert Split(b, sep) == [""] + rest by {
        assert b != [] && b[0] == sep && b[1..] == tail;
      }
      assert Join(pieces, [sep]) == first + b by {
        SeqAssoc(first, [sep], tail);
      }
      SplitPrefix(first, b, sep);
      assert first + "" == first;
      assert [first] + rest == pieces;
    }
  }

  /** `.map((x) => x.trim())` */
  function TrimEach(pieces: seq<string>): (r: seq<string>)
    ensures |r| == |pieces|
    ensures forall i :: 0 <= i < |r| ==> r[i] == Trim(pieces[i])
  {
    if pieces == [] then [] else [Trim(pieces[0])] + TrimEach(pieces[1..])
  }

  /** The server's reading of a comma-separated field:
      `field ? field.split(",").map((x) => x.trim()) : []`. */
  function ParseCommaList(field: Option<string>): (items: seq<string>)
    ensures !Truthy(field) ==> items == []
    ensures Truthy(field) ==> |items| == Count(field.value, ',') + 1
    ensures forall i :: 0 <= i < |items| ==> IsTrimmed(items[i]) && ',' !in items[i]
  {
    if Truthy(field) then
      var pieces := Split(field.value, ',');
      var items := TrimEach(pieces);
      assert forall i :: 0 <= i < |items| ==> ',' !in items[i] by {
        forall i | 0 <= i < |items| ensures ',' !in items[i] {
          TrimInfix(pieces[i]);
        }
      }
      items
    else []
  }

  /** What trim keeps is a contiguous part of its input. */
  lemma TrimInfix(s: string)
    ensures forall c :: c in Trim(s) ==> c in s
  {
    var t := TrimStart(s);
    forall c | c in Trim(s) ensures c in s {
      var k :| 0 <= k < |Trim(s)| && Trim(s)[k] == c;
      assert t[k] == c;
      assert s[|s| - |t| + k] == c;
    }
  }

  /** `items` with a space after each comma separator: `", "`-joining equals `","`-joining these. */
  function Spaced(items: seq<string>): (r: seq<string>)
    ensures |r| == |items|
  {
    if |items| <= 1 then items else [items[0]] + SpaceEach(items[1..])
  }

  function SpaceEach(items: seq<string>): (r: seq<string>)
    ensures |r| == |items|
    ensures forall i :: 0 <= i < |r| ==> r[i] == " " + items[i]
  {
    if items == [] then [] else [" " + items[0]] + SpaceEach(items[1..])
  }

  lemma {:induction false} JoinCommaSpace(items: seq<string>)
    requires |items| >= 1
    ensures Join(items, ", ") == Join(Spaced(items), ",")
  {
    if |items| > 1 {
      var tail := items[1..];
      var spaced := Spaced(items);
      assert spaced == [items[0]] + SpaceEach(tail);
      assert spaced[0] == items[0] && spaced[1..] == SpaceEach(tail);
      var rest := Join(tail, ", ");
      assert Join(spaced, ",") == items[0] + "," + Join(SpaceEach(tail), ",");
      JoinSpaceEach(tail);
      assert Join(items, ", ") == items[0] + ", " + rest;
      CommaSpace(items[0], rest);
    }
  }

  lemma CommaSpace(head: string, rest: string)
    ensures head + ", " + rest == head + "," + (" " + rest)
  {
    assert ", " == "," + " ";
  }

  lemma {:induction false} JoinSpaceEach(items: seq<string>)
    requires |items| >= 1
    ensures Join(SpaceEach(items), ",") == " " + Join(items, ", ")
  {
    if |items| > 1 {
      JoinSpaceEach(items[1..]);
      assert SpaceEach(items)[1..] == SpaceEach(items[1..]);
    }
  }

  lemma SpacedAt(items: seq<string>, i: int)
    requires 0 <= i < |items|
    ensures Spaced(items)[i] == if i == 0 then items[0] else " " + items[i]
  {
    if |items| > 1 && i > 0 {
      assert Spaced(items)[i] == SpaceEach(items[1..])[i - 1];
    }
  }

  /** Trimming undoes the spacing of trimmed items. */
  lemma TrimSpaced(items: seq<string>)
    requires forall i :: 0 <= i < |items| ==> IsTrimmed(items[i])
    ensures TrimEach(Spaced(items)) == items
  {
    var r := TrimEach(Spaced(items));
    forall i | 0 <= i < |items| ensures r[i] == items[i] {
      SpacedAt(items, i);
      if i > 0 { TrimLeadingSpace(items[i]); }
      TrimTrimmed(items[i]);
    }
  }

  /** Re-parsing a `", "`-joined list with the server rule gives the list back,
      provided every item is trimmed and comma-free and the join is not empty
      (the list `[""]` joins to `""`, which parses to `[]`). */
  lemma {:induction false} ParseJoinRoundTrip(items: seq<string>)
    requires forall i :: 0 <= i < |items| ==> IsTrimmed(items[i]) && ',' !in items[i]
    requires items != [""]
    ensures ParseCommaList(Some(Join(items, ", "))) == items
  {
    if items != [] {
      var spaced := Spaced(items);
      var joined := Join(items, ", ");
      forall i | 0 <= i < |spaced| ensures ',' !in spaced[i] {
        SpacedAt(items, i);
      }
      JoinCommaSpace(items);
      SplitJoin(spaced, ',');
      assert Split(joined, ',') == spaced;
      TrimSpaced(items);
      JoinNonEmpty(items);
      assert ParseCommaList(Some(joined)) == TrimEach(Split(joined, ','));
    }
  }

  /** A join is empty only for `[]` and `[""]`. */
  lemma JoinNonEmpty(items: seq<string>)
    requires items != [] && items != [""]
    ensures Join(items, ", ") != ""
  {
    if |items| > 1 {
      assert |Join(items, ", ")| >= 2;
    } else {
      assert items == [items[0]];
    }
  }

  /** The list `[""]` does not survive the edit round trip. */
  lemma EmptyItemDropped()
    ensures ParseCommaList(Some(Join([""], ", "))) == []
  {
  }

  // ------------------------------------------------------------------ lists

  lemma SeqAssoc<T>(x: seq<T>, y: seq<T>, z: seq<T>)
    ensures (x + y) + z == x + (y + z)
  {
  }

  /** `s.filter(keep)` */
  function Filter<T>(s: seq<T>, keep: T -> bool): seq<T> {
    if s == [] then []
    else
      var rest := Filter(s[1..], keep);
      if keep(s[0]) then [s[0]] + rest else rest
  }

  /** The filter keeps exactly the elements that pass, and is the identity exactly when
      every element passes. */
  lemma {:induction false} FilterKeeps<T>(s: seq<T>, keep: T -> bool)
    ensures var r := Filter(s, keep);
      && |r| <= |s|
      && (forall i :: 0 <= i < |r| ==> r[i] in s && keep(r[i]))
      && (forall i :: 0 <= i < |s| && keep(s[i]) ==> s[i] in r)
      && ((forall i :: 0 <= i < |s| ==> keep(s[i])) <==> r == s)
      && ((forall i :: 0 <= i < |s| ==> !keep(s[i])) <==> r == [])
      && (|r| == |s| ==> r == s)
  {
    if s != [] {
      var tail := s[1..];
      var rest := Filter(tail, keep);
      var r := Filter(s, keep);
      FilterKeeps(tail, keep);
      assert forall i :: 0 <= i < |tail| ==> tail[i] == s[i + 1];
      assert forall i :: 1 <= i < |s| ==> s[i] == tail[i - 1];
      if keep(s[0]) {
        assert r == [s[0]] + rest;
        assert forall i :: 1 <= i < |r| ==> r[i] == rest[i - 1];
      } else {
        assert r == rest;
      }
    }
  }

  /** Filtering distributes over concatenation, so it keeps the input order. */
  lemma {:induction false} FilterAppend<T>(a: seq<T>, b: seq<T>, keep: T -> bool)
    ensures Filter(a + b, keep) == Filter(a, keep) + Filter(b, keep)
  {
    if a == [] {
      assert a + b == b;
    } else {
      assert (a + b)[0] == a[0];
      assert (a + b)[1..] == a[1..] + b;
      FilterAppend(a[1..], b, keep);
    }
  }

  /** `s.filter((_, i) => i !== index)`: removes the element at `index`, if there is one. */
  function RemoveAt<T>(s: seq<T>, index: int): (r: seq<T>)
    ensures 0 <= index < |s| ==> r == s[..index] + s[index + 1..]
    ensures !(0 <= index < |s|) ==> r == s
  {
    if s == [] then []
    else if index == 0 then s[1..]
    else [s[0]] + RemoveAt(s[1..], index - 1)
  }

  /** `s.findIndex(matches)`: the first matching position, or -1. */
  function FindIndex<T>(s: seq<T>, matches: T -> bool): (r: int)
    ensures -1 <= r < |s|
    ensures 0 <= r ==> matches(s[r]) && forall j :: 0 <= j < r ==> !matches(s[j])
    ensures r == -1 ==> forall j :: 0 <= j < |s| ==> !matches(s[j])
  {
    if s == [] then -1
    else if matches(s[0]) then 0
    else
      var k := FindIndex(s[1..], matches);
      if k < 0 then -1 else k + 1
  }

  /** `s.find(matches)`: the first matching element. */
  function Find<T>(s: seq<T>, matches: T -> bool): (r: Option<T>)
    ensures r.Some? ==> exists k :: 0 <= k < |s| && s[k] == r.value && matches(s[k])
                          && forall j :: 0 <= j < k ==> !matches(s[j])
    ensures r.None? <==> forall j :: 0 <= j < |s| ==> !matches(s[j])
  {
    var k := FindIndex(s, matches);
    if k < 0 then None else Some(s[k])
  }

  /** The value of a decimal digit; 0 for any other character. */
  function DigitValue(c: char): nat {
    if '0' <= c <= '9' then c as int - '0' as int else 0
  }

  /** The number a string of decimal digits spells, most significant digit first. */
  function DigitsValue(r: string): nat {
    if r == [] then 0 else DigitsValue(r[..|r| - 1]) * 10 + DigitValue(r[|r| - 1])
  }

  /** Decimal digits of a natural number, as `String(n)` renders it: they spell `n`,
      with no leading zero. */
  function Decimal(n: nat): (r: string)
    ensures r != []
    ensures forall i :: 0 <= i < |r| ==> '0' <= r[i] <= '9'
    ensures DigitsValue(r) == n
    ensures r[0] != '0' || n == 0
  {
    var d := [('0' as int + n % 10) as char];
    if n < 10 then d
    else
      var r := Decimal(n / 10) + d;
      assert r[..|r| - 1] == Decimal(n / 10);
      r
  }
}
