/** Reading a push without building a JSON tree. Positions in the text are kept as what is left of
    it from there on. */
module CursorParse {
  import opened Seq32
  import opened CursorText

  datatype Push = Parsed(sender: string, nums: seq<u64>) | Skip | Fallback

  const TAG_UPDATE: string := "\"cursors_update\""
  const TAG_USER: string := "\"user_uuid\""
  const TAG_CURSORS: string := "\"cursors\""

  predicate At(s: string, k: int, tag: string) { 0 <= k && k + |tag| <= |s| && s[k..k + |tag|] == tag }

  /** The first place from `from` on; None if there is none. */
  function FirstAt(s: string, tag: string, from: nat): (r: Option<nat>)
    ensures r.Some? ==> from <= r.value && At(s, r.value, tag) && forall k :: from <= k < r.value ==> !At(s, k, tag)
    ensures r.None? ==> forall k :: from <= k ==> !At(s, k, tag)
    decreases |s| - from
  {
    if from + |tag| > |s| then None
    else if At(s, from, tag) then Some(from)
    else if from < |s| then FirstAt(s, tag, from + 1)
    else None
  }

  predicate IsSpace(c: char) { c == ' ' || c == '\n' || c == '\t' || c == '\r' }

  function SkipSpace(s: string): (r: string)
    ensures |r| <= |s|
  {
    if s != "" && IsSpace(s[0]) then SkipSpace(s[1..]) else s
  }

  ghost predicate Only(s: string, tag: string, k: int) {
    At(s, k, tag) && forall j :: At(s, j, tag) ==> j == k
  }

  /** The only place of the tag, if it has just one. */
  function OnlyAt(s: string, tag: string): (r: Option<nat>)
    ensures r.Some? ==> Only(s, tag, r.value)
    ensures r.None? ==> forall k :: !Only(s, tag, k)
  {
    match FirstAt(s, tag, 0)
    case None => None
    case Some(k) =>
      match FirstAt(s, tag, k + 1)
      case Some(k2) => assert At(s, k, tag) && At(s, k2, tag); None
      case None => Some(k)
  }

  /** What follows the colon after the only place of the tag. */
  function ValueAfterKey(s: string, tag: string): Option<string> {
    match OnlyAt(s, tag)
    case None => None
    case Some(k) =>
      var r := SkipSpace(s[k + |tag|..]);
      if r == "" || r[0] != ':' then None else Some(SkipSpace(r[1..]))
  }

  /** Up to the next `c`; all of it if there is none. */
  function Upto(s: string, c: char): (k: nat)
    ensures k <= |s| && (k < |s| ==> s[k] == c) && forall j :: 0 <= j < k ==> s[j] != c
  {
    if s == "" || s[0] == c then 0 else 1 + Upto(s[1..], c)
  }

  function Digits(s: string, v: u64, n: nat): (r: (u64, nat, string))
    ensures |r.2| <= |s|
    decreases |s|
  {
    if s != "" && IsDigit(s[0]) then Digits(s[1..], (v * 10 + ValueOf(s[0])) % TWO64, n + 1) else (v, n, s)
  }

  datatype Cell = Cell(row: u64, col: u64, haveRow: bool)

  function WithKey(c: Cell, key: string, v: u64): Cell {
    if key == "row" then c.(row := v, haveRow := true) else if key == "column" then c.(col := v) else c
  }

  /** A number after a colon, and what follows it. */
  function Number(s: string): (r: Option<(u64, string)>)
    ensures r.Some? ==> |r.value.1| < |s|
  {
    if s == "" || s[0] != ':' then None
    else
      var d := Digits(SkipSpace(s[1..]), 0, 0);
      if d.1 == 0 || d.1 > 16 then None
      else if d.2 != "" && (d.2[0] == '.' || d.2[0] == 'e' || d.2[0] == 'E') then None
      else Some((d.0, d.2))
  }

  /** The rest of a cursor after its opening brace. */
  function Fields(s: string, c: Cell): (r: Option<(Cell, string)>)
    ensures r.Some? ==> |r.value.1| < |s|
    decreases |s|
  {
    var t := SkipSpace(s);
    if t == "" then None
    else if t[0] == '}' then Some((c, t[1..]))
    else if t[0] == ',' then Fields(t[1..], c)
    else if t[0] != '"' then None
    else
      var j := Upto(t[1..], '"');
      if j == |t[1..]| then None
      else
        var n := Number(SkipSpace(t[j + 2..]));
        if n.None? then None else Fields(n.value.1, WithKey(c, t[1..j + 1], n.value.0))
  }

  /** The rest of the cursor array after its opening bracket. */
  function Cursors(s: string, sender: string, nums: seq<u64>): Push
    decreases |s|
  {
    var t := SkipSpace(s);
    if t == "" then Fallback
    else if t[0] == ']' then if nums == [] then Skip else Parsed(sender, nums)
    else if t[0] == ',' then Cursors(t[1..], sender, nums)
    else if t[0] != '{' then Fallback
    else
      var f := Fields(t[1..], Cell(0, 0, false));
      if f.None? || !f.value.0.haveRow then Fallback
      else Cursors(f.value.1, sender, nums + [f.value.0.row, f.value.0.col])
  }

  function Parse(raw: string): Push {
    if FirstAt(raw, TAG_UPDATE, 0).None? then Skip
    else
      var u := ValueAfterKey(raw, TAG_USER);
      if u.None? || u.value == "" || u.value[0] != '"' then Fallback
      else
        var end := Upto(u.value[1..], '"');
        if end == |u.value[1..]| || Upto(u.value[1..][..end], '\\') < end then Fallback
        else
          var c := ValueAfterKey(raw, TAG_CURSORS);
          if c.None? || c.value == "" || c.value[0] != '[' then Fallback
          else Cursors(c.value[1..], u.value[1..][..end], [])
  }

  // ---- reading back what was printed ----

  lemma OneDigit(t: string, d: int, v: u64, n: nat)
    requires 0 <= d < 10 && v * 10 + d < TWO64
    ensures Digits([Digit(d)] + t, v, n) == Digits(t, v * 10 + d, n + 1)
  {
    assert ([Digit(d)] + t)[1..] == t;
  }

  lemma {:induction false} DigitsOfDecimal(v: u64, t: string)
    ensures Digits(Decimal(v) + t, 0, 0) == Digits(t, v, |Decimal(v)|)
  {
    hide Digits, Digit;
    if v >= 10 {
      DigitsOfDecimal(v / 10, [Digit(v % 10)] + t);
      OneDigit(t, v % 10, v / 10, |Decimal(v / 10)|);
      assert Decimal(v) + t == Decimal(v / 10) + ([Digit(v % 10)] + t);
    } else {
      OneDigit(t, v, 0, 0);
    }
  }

  function Pow10(n: nat): nat { if n == 0 then 1 else 10 * Pow10(n - 1) }

  lemma {:induction false} DecimalFits(v: nat, n: nat)
    requires v < Pow10(n) && n > 0
    ensures |Decimal(v)| <= n
  {
    if v >= 10 { DecimalFits(v / 10, n - 1); }
  }

  lemma SixteenDigits(v: nat)
    requires v < 0x1_0000_0000_0000
    ensures |Decimal(v)| <= 16
  {
    assert Pow10(4) == 10000 && Pow10(8) == 100000000;
    assert Pow10(12) == 1000000000000 && Pow10(16) == 10000000000000000;
    DecimalFits(v, 16);
  }

  predicate Ends(t: string) { t != "" && (t[0] == ',' || t[0] == '}') }

  lemma NumberIsRead(v: u64, t: string)
    requires v < 0x1_0000_0000_0000 && Ends(t)
    ensures Number(":" + Decimal(v) + t) == Some((v, t))
  {
    SixteenDigits(v);
    DigitsOfDecimal(v, t);
    var s := ":" + Decimal(v) + t;
    assert s[1..] == Decimal(v) + t;
    assert s[1..][0] == Decimal(v)[0];
  }

  lemma FieldIsRead(key: string, v: u64, t: string, c: Cell)
    requires v < 0x1_0000_0000_0000 && Ends(t) && forall k :: 0 <= k < |key| ==> key[k] != '"'
    ensures Fields("\"" + key + "\":" + Decimal(v) + t, c) == Fields(t, WithKey(c, key, v))
  {
    hide Decimal, WithKey, Number, Fields;
    var n := ":" + Decimal(v) + t;
    var s := "\"" + (key + "\"" + n);
    assert s == "\"" + key + "\":" + Decimal(v) + t;
    assert s[1..] == key + "\"" + n;
    UptoQuote(key, n);
    assert s[1..|key| + 1] == key && s[|key| + 2..] == n;
    NumberIsRead(v, t);
    FieldsStep(s, key, v, t, c);
  }

  lemma FieldsStep(s: string, key: string, v: u64, t: string, c: Cell)
    requires |s| > |key| + 2 && s[0] == '"' && Upto(s[1..], '"') == |key| && s[1..|key| + 1] == key
    requires s[|key| + 2] == ':' && Number(s[|key| + 2..]) == Some((v, t))
    ensures Fields(s, c) == Fields(t, WithKey(c, key, v))
  {
    hide WithKey, Number;
  }

  lemma UptoQuote(key: string, n: string)
    requires forall k :: 0 <= k < |key| ==> key[k] != '"'
    ensures Upto(key + "\"" + n, '"') == |key|
  {
    var s := key + "\"" + n;
    assert s[|key|] == '"';
    assert forall j :: 0 <= j < |key| ==> s[j] == key[j];
  }

  lemma CommaIsSkipped(t: string, c: Cell)
    ensures Fields("," + t, c) == Fields(t, c)
  {
    assert ("," + t)[1..] == t;
  }

  lemma BraceCloses(t: string, c: Cell)
    ensures Fields("}" + t, c) == Some((c, t))
  {
    assert ("}" + t)[1..] == t;
  }

  lemma CursorIsRead(row: u64, col: u64, t: string)
    requires row < 0x1_0000_0000_0000 && col < 0x1_0000_0000_0000
    ensures Cursor(row, col) + t == "{" + (Cursor(row, col) + t)[1..]
    ensures Fields((Cursor(row, col) + t)[1..], Cell(0, 0, false)) == Some((Cell(row, col, true), t))
  {
    hide Fields, Decimal;
    var c0, c1, c2 := Cell(0, 0, false), Cell(row, 0, true), Cell(row, col, true);
    var after := "}" + t;
    var column := "\"column\":" + Decimal(col) + after;
    var all := Cursor(row, col) + t;
    assert all == "{" + ("\"row\":" + Decimal(row) + ("," + column));
    FieldIsRead("row", row, "," + column, c0);
    CommaIsSkipped(column, c1);
    FieldIsRead("column", col, after, c1);
    BraceCloses(t, c2);
    assert "\"row\":" + Decimal(row) + ("," + column) == "\"" + "row" + "\":" + Decimal(row) + ("," + column);
    assert column == "\"" + "column" + "\":" + Decimal(col) + after;
  }

  predicate Exact(nums: seq<u64>) { forall k :: 0 <= k < |nums| ==> nums[k] < 0x1_0000_0000_0000 }

  lemma {:induction false} ItemsAreRead(nums: seq<u64>, t: string, sender: string, acc: seq<u64>)
    requires Exact(nums)
    ensures Cursors(Items(nums) + "]" + t, sender, acc) ==
      if acc + Paired(nums) == [] then Skip else Parsed(sender, acc + Paired(nums))
    decreases |nums|
  {
    hide *;
    if nums == [] {
      NoItems(t, sender, acc);
    } else {
      var row, col, more := nums[0], Second(nums), After2(nums);
      var rest := Items(more) + "]" + t;
      var next := Comma(|nums| > 2) + rest;
      ExactNext(nums);
      ItemsAreRead(more, t, sender, acc + [row, col]);
      ItemsNext(nums);
      assert Items(nums) + "]" + t == Cursor(row, col) + next;
      CursorIsRead(row, col, next);
      CursorsStep(Cursor(row, col) + next, row, col, next, sender, acc);
      CursorsComma(|nums| > 2, rest, sender, acc + [row, col]);
      assert (acc + [row, col]) + Paired(more) == acc + ([row, col] + Paired(more));
    }
  }

  lemma ExactNext(nums: seq<u64>)
    requires Exact(nums) && nums != []
    ensures Exact(After2(nums)) && nums[0] < 0x1_0000_0000_0000 && Second(nums) < 0x1_0000_0000_0000
    ensures [nums[0], Second(nums)] + Paired(After2(nums)) == Paired(nums)
    ensures |After2(nums)| < |nums|
  {
  }

  lemma NoItems(t: string, sender: string, acc: seq<u64>)
    ensures Cursors(Items([]) + "]" + t, sender, acc) ==
      if acc + Paired([]) == [] then Skip else Parsed(sender, acc + Paired([]))
  {
    assert Items([]) + "]" + t == "]" + t;
    assert acc + Paired([]) == acc;
  }

  lemma CursorsStep(s: string, row: u64, col: u64, t: string, sender: string, acc: seq<u64>)
    requires s != "" && s[0] == '{' && Fields(s[1..], Cell(0, 0, false)) == Some((Cell(row, col, true), t))
    ensures Cursors(s, sender, acc) == Cursors(t, sender, acc + [row, col])
  {
    hide Fields;
  }

  lemma CursorsComma(more: bool, t: string, sender: string, acc: seq<u64>)
    ensures Cursors(Comma(more) + t, sender, acc) == Cursors(t, sender, acc)
  {
    if more {
      assert ("," + t)[1..] == t;
    } else {
      assert "" + t == t;
    }
  }

  predicate Plain(sender: string) { forall k :: 0 <= k < |sender| ==> sender[k] != '"' && sender[k] != '\\' }

  /** At the only place of the tag the text goes on with a colon and the value. */
  lemma ValueIsFound(raw: string, tag: string, value: string, k: int)
    requires At(raw, k, tag + ":" + value) && value != "" && !IsSpace(value[0]) && Only(raw, tag, k)
    ensures var v := ValueAfterKey(raw, tag);
      v.Some? && |value| <= |v.value| && v.value[..|value|] == value && v.value == raw[k + |tag| + 1..]
  {
    var rest := raw[k + |tag|..];
    var found := raw[k..k + |tag + ":" + value|];
    assert found[|tag|] == ':' && found[|tag| + 1..] == value;
    assert rest[0] == ':' && rest[1..] == raw[k + |tag| + 1..];
    assert rest[1..][..|value|] == found[|tag| + 1..];
    assert OnlyAt(raw, tag) == Some(k);
  }

  lemma TagIsThere(raw: string, tag: string, value: string, k: int)
    requires At(raw, k, tag + ":" + value)
    ensures At(raw, k, tag)
  {
    var found := raw[k..k + |tag + ":" + value|];
    assert found[..|tag|] == tag;
  }

  lemma ValueIsNotFound(raw: string, tag: string, k: int)
    requires At(raw, k, tag) && !Only(raw, tag, k)
    ensures ValueAfterKey(raw, tag).None?
  {
  }

  lemma SenderIsRead(v: string, sender: string)
    requires Plain(sender) && |sender| + 2 <= |v| && v[..|sender| + 2] == "\"" + sender + "\""
    ensures v[0] == '"'
    ensures var end := Upto(v[1..], '"');
      end == |sender| < |v[1..]| && v[1..][..end] == sender && Upto(v[1..][..end], '\\') == end
  {
    var q := v[..|sender| + 2];
    assert q[0] == '"' && q[1..|sender| + 1] == sender && q[|sender| + 1] == '"';
    assert v[1..] == sender + "\"" + v[|sender| + 2..];
    UptoQuote(sender, v[|sender| + 2..]);
  }

  /** A push is read back exactly if each of the two keys occurs in it just once: the sender, and the
      numbers of the cursor array as printed, in pairs. Otherwise it is left to the JSON decoder. */
  lemma PushIsRead(raw: string, sender: string, nums: seq<u64>, ku: int, kc: int, kt: int)
    requires At(raw, kt, TAG_UPDATE) && Plain(sender) && nums != [] && Exact(nums)
    requires At(raw, ku, TAG_USER + ":" + ("\"" + sender + "\""))
      && At(raw, kc, TAG_CURSORS + ":" + ("[" + Items(nums) + "]"))
    ensures Only(raw, TAG_USER, ku) && Only(raw, TAG_CURSORS, kc) ==> Parse(raw) == Parsed(sender, Paired(nums))
    ensures !(Only(raw, TAG_USER, ku) && Only(raw, TAG_CURSORS, kc)) ==> Parse(raw) == Fallback
  {
    var user, list := "\"" + sender + "\"", "[" + Items(nums) + "]";
    TagIsThere(raw, TAG_USER, user, ku);
    TagIsThere(raw, TAG_CURSORS, list, kc);
    hide Items, At, Only, Cursors, Paired, Exact, Upto, Plain, IsSpace, ValueAfterKey;
    NotSkipped(raw, kt);
    if !Only(raw, TAG_USER, ku) {
      ValueIsNotFound(raw, TAG_USER, ku);
    } else {
      NotSpace();
      ValueIsFound(raw, TAG_USER, user, ku);
      SenderIsRead(ValueAfterKey(raw, TAG_USER).value, sender);
      if !Only(raw, TAG_CURSORS, kc) {
        ValueIsNotFound(raw, TAG_CURSORS, kc);
      } else {
        ValueIsFound(raw, TAG_CURSORS, list, kc);
        ArrayIsRead(ValueAfterKey(raw, TAG_CURSORS).value, nums, sender);
      }
    }
  }

  lemma NotSpace()
    ensures !IsSpace('"') && !IsSpace('[')
  {
  }

  lemma NotSkipped(raw: string, k: int)
    requires At(raw, k, TAG_UPDATE)
    ensures FirstAt(raw, TAG_UPDATE, 0).Some?
  {
  }

  lemma ArrayIsRead(v: string, nums: seq<u64>, sender: string)
    requires Exact(nums) && nums != []
    requires var list := "[" + Items(nums) + "]"; |list| <= |v| && v[..|list|] == list
    ensures v[0] == '[' && Cursors(v[1..], sender, []) == Parsed(sender, Paired(nums))
  {
    hide Cursors, Items, Exact;
    var list := "[" + Items(nums) + "]";
    assert v == list + v[|list|..];
    assert v[1..] == Items(nums) + "]" + v[|list|..];
    ItemsAreRead(nums, v[|list|..], sender, []);
    assert [] + Paired(nums) == Paired(nums) != [];
  }

  // ---- the parser, position by position ----

  lemma Tail<T>(s: seq<T>, i: nat, k: nat)
    requires i + k <= |s|
    ensures s[i..][k..] == s[i + k..]
  {
  }

  method SkipSpaceAt(raw: string, from: nat) returns (i: nat)
    requires from <= |raw|
    ensures from <= i <= |raw| && raw[i..] == SkipSpace(raw[from..])
  {
    i := from;
    while i < |raw| && (raw[i] == ' ' || raw[i] == '\n' || raw[i] == '\t' || raw[i] == '\r')
      invariant from <= i <= |raw| && SkipSpace(raw[i..]) == SkipSpace(raw[from..])
    {
      Tail(raw, i, 1);
      i := i + 1;
    }
  }

  /** The position after the colon of the only key `tag`. */
  method ValueAfterKeyAt(raw: string, tag: string) returns (r: Option<nat>)
    ensures r.Some? <==> ValueAfterKey(raw, tag).Some?
    ensures r.Some? ==> r.value <= |raw| && raw[r.value..] == ValueAfterKey(raw, tag).value
  {
    var idx := OnlyAt(raw, tag);
    if idx.None? {
      return None;
    }
    var i := SkipSpaceAt(raw, idx.value + |tag|);
    if i >= |raw| || raw[i] != ':' {
      return None;
    }
    Tail(raw, i, 1);
    i := SkipSpaceAt(raw, i + 1);
    return Some(i);
  }

  method NumberAt(raw: string, from: nat) returns (r: Option<u64>, i: nat)
    requires from <= |raw|
    ensures r.Some? <==> Number(raw[from..]).Some?
    ensures r.Some? ==> from < i <= |raw| && Number(raw[from..]).value == (r.value, raw[i..])
  {
    i := from;
    if i >= |raw| || raw[i] != ':' {
      return None, i;
    }
    Tail(raw, i, 1);
    i := SkipSpaceAt(raw, i + 1);
    ghost var start := i;
    var v: u64, digits := 0, 0;
    while i < |raw| && raw[i] >= '0' && raw[i] <= '9'
      invariant from < start <= i <= |raw| && digits >= 0
      invariant Digits(raw[i..], v, digits) == Digits(raw[start..], 0, 0)
    {
      Tail(raw, i, 1);
      v := (v * 10 + ValueOf(raw[i])) % TWO64;
      digits := digits + 1;
      i := i + 1;
    }
    if digits == 0 || digits > 16 {
      return None, i;
    }
    if i < |raw| && (raw[i] == '.' || raw[i] == 'e' || raw[i] == 'E') {
      return None, i;
    }
    return Some(v), i;
  }

  method CellAt(raw: string, from: nat) returns (r: Option<Cell>, i: nat)
    requires from <= |raw|
    ensures r.Some? <==> Fields(raw[from..], Cell(0, 0, false)).Some?
    ensures r.Some? ==> from < i <= |raw| && Fields(raw[from..], Cell(0, 0, false)).value == (r.value, raw[i..])
  {
    hide Number, SkipSpace;
    i := from;
    var cell := Cell(0, 0, false);
    while true
      invariant from <= i <= |raw|
      invariant Fields(raw[i..], cell) == Fields(raw[from..], Cell(0, 0, false))
      decreases |raw| - i
    {
      i := SkipSpaceAt(raw, i);
      if i >= |raw| {
        return None, i;
      }
      Tail(raw, i, 1);
      if raw[i] == '}' {
        return Some(cell), i + 1;
      }
      if raw[i] == ',' {
        i := i + 1;
        continue;
      }
      if raw[i] != '"' {
        return None, i;
      }
      var j := Upto(raw[i + 1..], '"');
      if j == |raw[i + 1..]| {
        return None, i;
      }
      var key := raw[i + 1..i + 1 + j];
      assert raw[i..][1..j + 1] == key;
      Tail(raw, i, j + 2);
      var v;
      i := SkipSpaceAt(raw, i + j + 2);
      v, i := NumberAt(raw, i);
      if v.None? {
        return None, i;
      }
      if key == "row" {
        cell := cell.(row := v.value, haveRow := true);
      } else if key == "column" {
        cell := cell.(col := v.value);
      }
    }
  }

  method CursorsAt(raw: string, from: nat, sender: string) returns (r: Push)
    requires from <= |raw|
    ensures r == Cursors(raw[from..], sender, [])
  {
    hide Fields, SkipSpace;
    var i := from;
    var nums: seq<u64> := [];
    while true
      invariant from <= i <= |raw|
      invariant Cursors(raw[i..], sender, nums) == Cursors(raw[from..], sender, [])
      decreases |raw| - i
    {
      i := SkipSpaceAt(raw, i);
      if i >= |raw| {
        return Fallback;
      }
      Tail(raw, i, 1);
      if raw[i] == ']' {
        if |nums| == 0 {
          return Skip;
        }
        return Parsed(sender, nums);
      }
      if raw[i] == ',' {
        i := i + 1;
        continue;
      }
      if raw[i] != '{' {
        return Fallback;
      }
      var cell;
      cell, i := CellAt(raw, i + 1);
      if cell.None? || !cell.value.haveRow {
        return Fallback;
      }
      nums := nums + [cell.value.row, cell.value.col];
    }
  }

  method ParseCursorPush(raw: string) returns (r: Push)
    ensures r == Parse(raw)
  {
    hide Cursors, ValueAfterKey, FirstAt, Upto, At;
    if FirstAt(raw, TAG_UPDATE, 0).None? {
      return Skip;
    }
    var u := ValueAfterKeyAt(raw, TAG_USER);
    if u.None? || u.value >= |raw| || raw[u.value] != '"' {
      return Fallback;
    }
    var i := u.value;
    Tail(raw, i, 1);
    var end := Upto(raw[i + 1..], '"');
    if end == |raw[i + 1..]| || Upto(raw[i + 1..i + 1 + end], '\\') < end {
      assert raw[i + 1..][..end] == raw[i + 1..i + 1 + end];
      return Fallback;
    }
    var sender := raw[i + 1..i + 1 + end];
    assert raw[i + 1..][..end] == sender;
    var c := ValueAfterKeyAt(raw, TAG_CURSORS);
    if c.None? || c.value >= |raw| || raw[c.value] != '[' {
      return Fallback;
    }
    Tail(raw, c.value, 1);
    r := CursorsAt(raw, c.value + 1, sender);
  }
}
