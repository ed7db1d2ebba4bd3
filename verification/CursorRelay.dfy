/** The push a server makes of a message, and when the fast parser reads it. Text is seen here as the
    pieces between its quotes: a quoted key occurs where one of the pieces is that key. */
module CursorRelay {
  import opened Seq32
  import opened CursorText
  import opened CursorParse

  predicate NoQuote(s: string) { forall k :: 0 <= k < |s| ==> s[k] != '"' }

  predicate NoQuotes(ps: seq<string>) { forall i :: 0 <= i < |ps| ==> NoQuote(ps[i]) }

  function Quoted(ps: seq<string>): string
    requires ps != []
  {
    if |ps| == 1 then ps[0] else ps[0] + "\"" + Quoted(ps[1..])
  }

  /** Where piece `i` starts. */
  function Start(ps: seq<string>, i: nat): (k: nat)
    requires i < |ps|
  {
    if i == 0 then 0 else |ps[0]| + 1 + Start(ps[1..], i - 1)
  }

  function Tag(w: string): string { "\"" + w + "\"" }

  /** A quoted key occurs only as one of the inner pieces. */
  lemma {:induction false} OccursAsPiece(ps: seq<string>, w: string, k: int) returns (i: nat)
    requires ps != [] && NoQuotes(ps) && NoQuote(w) && At(Quoted(ps), k, Tag(w))
    ensures 0 < i < |ps| - 1 && ps[i] == w && k == Start(ps, i) - 1
    decreases |ps|
  {
    var s := Quoted(ps);
    assert s[k] == '"' by { assert s[k..k + |Tag(w)|][0] == '"'; }
    if k == |ps[0]| {
      i := 1;
      var rest := Quoted(ps[1..]);
      assert rest == s[k + 1..];
      assert rest[..|w| + 1] == s[k..k + |Tag(w)|][1..] == w + "\"";
      FirstPiece(ps[1..], w);
    } else {
      assert k > |ps[0]| && |ps| > 1;
      var rest := Quoted(ps[1..]);
      assert rest == s[|ps[0]| + 1..];
      assert rest[k - |ps[0]| - 1..k - |ps[0]| - 1 + |Tag(w)|] == s[k..k + |Tag(w)|];
      var j := OccursAsPiece(ps[1..], w, k - |ps[0]| - 1);
      i := j + 1;
    }
  }

  lemma FirstPiece(ps: seq<string>, w: string)
    requires ps != [] && NoQuotes(ps) && NoQuote(w) && |w| < |Quoted(ps)| && Quoted(ps)[..|w| + 1] == w + "\""
    ensures |ps| > 1 && ps[0] == w
  {
    var s := Quoted(ps);
    var p := s[..|w| + 1];
    assert s[|w|] == p[|w|] == '"';
    assert forall k :: 0 <= k < |w| ==> s[k] == p[k] == w[k];
    assert forall k :: 0 <= k < |ps[0]| ==> s[k] == ps[0][k] != '"';
    assert |w| >= |ps[0]|;
    if |ps| > 1 { assert s[|ps[0]|] == '"'; }
  }

  /** An inner piece with what follows it up to the end of another piece is found at its start. */
  lemma {:induction false} PieceOccurs(ps: seq<string>, i: nat)
    requires 0 < i < |ps|
    ensures 0 < Start(ps, i) <= |Quoted(ps)| && Quoted(ps)[Start(ps, i) - 1..] == "\"" + Quoted(ps[i..])
  {
    var s, rest := Quoted(ps), Quoted(ps[1..]);
    assert s == ps[0] + "\"" + rest;
    if i == 1 {
      assert s[|ps[0]|..] == "\"" + rest;
    } else {
      PieceOccurs(ps[1..], i - 1);
      assert ps[1..][i - 1..] == ps[i..];
      var k := Start(ps[1..], i - 1);
      assert s[|ps[0]| + 1..] == rest;
      assert s[|ps[0]| + k..] == rest[k - 1..];
    }
  }

  // ---- the push ----

  function Front(): seq<string> {
    ["{", "push", ":{", "channel", ":", "c", ",", "pub", ":{", "data", ":{", "type", ":", "cursors_update", ",",
    "payload", ":{"]
  }

  /** The pieces from the cursor array on; `pre` closes what came before. */
  function Rest(pre: string, nums: seq<u64>): (ps: seq<string>)
    ensures |ps| > 2
    decreases |nums|
  {
    if nums == [] then [pre + "],", "x", ":1}}}}}"]
    else
      [pre + "{", "row", ":" + Decimal(nums[0]) + ",", "column"]
      + Rest(NextPre(nums), After2(nums))
  }

  function Pieces(sender: string, nums: seq<u64>): seq<string> {
    Front() + ["user_uuid", ":", sender, ",", "cursors"] + Rest(":[", nums)
  }

  function Relay(sender: string, nums: seq<u64>): string {
    Quoted(Pieces(sender, nums))
  }

  lemma QuotedFive(a: string, b: string, c: string, d: string, rest: seq<string>)
    requires rest != []
    ensures Quoted([a, b, c, d] + rest) == a + "\"" + b + "\"" + c + "\"" + d + "\"" + Quoted(rest)
  {
    QuotedOne(d, rest);
    QuotedOne(c, [d] + rest);
    QuotedOne(b, [c] + ([d] + rest));
    QuotedOne(a, [b] + ([c] + ([d] + rest)));
    assert [a, b, c, d] + rest == [a] + ([b] + ([c] + ([d] + rest)));
  }

  lemma QuotedOne(a: string, rest: seq<string>)
    requires rest != []
    ensures Quoted([a] + rest) == a + "\"" + Quoted(rest)
  {
    assert ([a] + rest)[1..] == rest;
  }

  function Closing(): string { "],\"x\":1}}}}}" }

  function NextPre(nums: seq<u64>): string { ":" + Decimal(Second(nums)) + "}" + Comma(|nums| > 2) }

  /** A cursor closed by what comes after it, seen between its quotes. */
  lemma CursorSpelled(pre: string, row: u64, col: u64, comma: string, items: string, end: string)
    ensures (pre + "{") + "\"" + "row" + "\"" + (":" + Decimal(row) + ",") + "\"" + "column" + "\""
            + ((":" + Decimal(col) + "}" + comma) + items + end)
         == pre + (Cursor(row, col) + comma + items) + end
  {
    hide Decimal;
    assert Cursor(row, col) == "{" + "\"" + "row" + "\"" + (":" + Decimal(row) + ",") + "\"" + "column" + "\""
      + (":" + Decimal(col) + "}");
  }

  lemma RestNext(pre: string, nums: seq<u64>)
    requires nums != []
    ensures Rest(pre, nums) == [pre + "{", "row", ":" + Decimal(nums[0]) + ",", "column"]
      + Rest(NextPre(nums), After2(nums))
    ensures |After2(nums)| < |nums|
  {
  }

  lemma RestEnds(pre: string)
    ensures Quoted(Rest(pre, [])) == pre + Items([]) + Closing()
  {
    QuotedOne("x", [":1}}}}}"]);
    QuotedOne(pre + "],", ["x", ":1}}}}}"]);
    assert Rest(pre, []) == [pre + "],"] + ["x", ":1}}}}}"] && ["x", ":1}}}}}"] == ["x"] + [":1}}}}}"];
  }

  /** The pieces spell the cursor array as it is printed. */
  lemma {:induction false} RestSpellsItems(pre: string, nums: seq<u64>)
    ensures Quoted(Rest(pre, nums)) == pre + Items(nums) + Closing()
    decreases |nums|
  {
    hide *;
    if nums == [] {
      RestEnds(pre);
    } else {
      RestNext(pre, nums);
      var more, next := After2(nums), NextPre(nums);
      RestSpellsItems(next, more);
      QuotedFive(pre + "{", "row", ":" + Decimal(nums[0]) + ",", "column", Rest(next, more));
      CursorSpelled(pre, nums[0], Second(nums), Comma(|nums| > 2), Items(more), Closing());
      NextPreIs(nums);
      ItemsNext(nums);
    }
  }

  lemma NextPreIs(nums: seq<u64>)
    ensures NextPre(nums) == ":" + Decimal(Second(nums)) + "}" + Comma(|nums| > 2)
  {
  }

  lemma {:induction false} RestIsNoKey(pre: string, nums: seq<u64>, i: nat)
    requires pre != "" && pre[0] == ':' && NoQuote(pre) && i < |Rest(pre, nums)|
    ensures var r := Rest(pre, nums)[i]; NoQuote(r) && (|r| < 7 || r[0] == ':')
    decreases |nums|
  {
    if nums != [] && i >= 4 { RestIsNoKey(NextPre(nums), After2(nums), i - 4); }
  }

  lemma {:induction false} StartGrows(ps: seq<string>, i: nat, j: nat)
    requires i < j < |ps|
    ensures Start(ps, i) < Start(ps, j)
  {
    if i > 0 { StartGrows(ps[1..], i - 1, j - 1); }
  }

  /** From an inner piece on, the text goes on with its closing quote and the pieces after it. */
  lemma PieceStarts(ps: seq<string>, i: nat, text: string)
    requires 0 < i < |ps| && text <= "\"" + Quoted(ps[i..])
    ensures At(Quoted(ps), Start(ps, i) - 1, text)
  {
    hide Quoted, Start;
    PieceOccurs(ps, i);
    var s, k := Quoted(ps), Start(ps, i) - 1;
    assert s[k..][..|text|] == text;
    assert s[k..k + |text|] == s[k..][..|text|];
  }

  lemma PieceIsTagged(ps: seq<string>, i: nat)
    requires 0 < i < |ps| - 1
    ensures At(Quoted(ps), Start(ps, i) - 1, Tag(ps[i]))
  {
    assert ps[i..] == [ps[i]] + ps[i + 1..];
    QuotedOne(ps[i], ps[i + 1..]);
    PieceStarts(ps, i, Tag(ps[i]));
  }

  predicate SolePiece(ps: seq<string>, i: nat, w: string) {
    forall j :: 0 < j < |ps| - 1 && ps[j] == w ==> j == i
  }

  /** A key is the only one of its name exactly if no other inner piece is that name. */
  lemma OnlyPiece(ps: seq<string>, i: nat, w: string)
    requires NoQuotes(ps) && NoQuote(w) && 0 < i < |ps| - 1 && ps[i] == w
    ensures Only(Quoted(ps), Tag(w), Start(ps, i) - 1) <==> SolePiece(ps, i, w)
  {
    hide Quoted, Start, At, NoQuotes, NoQuote, Tag;
    var s, k := Quoted(ps), Start(ps, i) - 1;
    PieceIsTagged(ps, i);
    if SolePiece(ps, i, w) {
      forall k2 | At(s, k2, Tag(w)) ensures k2 == k { var j := OccursAsPiece(ps, w, k2); }
    } else {
      var j :| 0 < j < |ps| - 1 && ps[j] == w && j != i;
      PieceIsTagged(ps, j);
      if i < j { StartGrows(ps, i, j); } else { StartGrows(ps, j, i); }
    }
  }

  lemma FrontIs()
    ensures var ps := Front(); |ps| == 17 && NoQuotes(ps) && ps[13] == "cursors_update"
    ensures forall j :: 0 <= j < 17 ==> Front()[j] != "user_uuid" && Front()[j] != "cursors"
  {
    var ps := Front();
    assert |"user_uuid"| == 9 && forall j :: 0 <= j < 17 ==> |ps[j]| != 9;
    assert |"cursors"| == 7 && forall j :: 0 <= j < 17 && |ps[j]| == 7 ==> j == 3 || j == 15;
    assert "cursors"[1] == 'u' && ps[3][1] == 'h' && ps[15][1] == 'a';
  }

  lemma PiecesAre(sender: string, nums: seq<u64>)
    requires NoQuote(sender)
    ensures var ps := Pieces(sender, nums);
      && |ps| > 24 && NoQuotes(ps) && ps[13] == "cursors_update" && ps[17] == "user_uuid" && ps[21] == "cursors"
      && ps[18..] == [":", sender, ",", "cursors"] + Rest(":[", nums)
      && ps[22..] == Rest(":[", nums)
      && (SolePiece(ps, 17, "user_uuid") <==> sender != "user_uuid")
      && (SolePiece(ps, 21, "cursors") <==> sender != "cursors")
  {
    FrontIs();
    hide Front, Rest;
    var ps := Pieces(sender, nums);
    forall j | 22 <= j < |ps| ensures NoQuote(ps[j]) && ps[j] != "user_uuid" && ps[j] != "cursors" {
      RestIsNoKey(":[", nums, j - 22);
    }
    assert ps[19] == sender && ps[18] == ":" && ps[20] == ",";
    assert forall j :: 0 <= j < 17 ==> ps[j] == Front()[j];
    assert |"user_uuid"| == 9 && |"cursors"| == 7 && |":"| == 1 && |","| == 1;
  }

  lemma TagsAre()
    ensures Tag("user_uuid") == TAG_USER && Tag("cursors") == TAG_CURSORS && Tag("cursors_update") == TAG_UPDATE
    ensures NoQuote("user_uuid") && NoQuote("cursors") && NoQuote("cursors_update")
  {
  }

  lemma SpellsSender(w: string, sender: string, more: string)
    ensures Tag(w) + ":" + ("\"" + sender + "\"") <= "\"" + (w + "\"" + (":" + "\"" + sender + "\"" + more))
  {
    assert "\"" + (w + "\"" + (":" + "\"" + sender + "\"" + more)) == (Tag(w) + ":" + ("\"" + sender + "\"")) + more;
  }

  lemma SpellsList(w: string, items: string, more: string)
    ensures Tag(w) + ":" + ("[" + items + "]") <= "\"" + (w + "\"" + (":[" + items + ("]" + more)))
  {
    assert "\"" + (w + "\"" + (":[" + items + ("]" + more))) == (Tag(w) + ":" + ("[" + items + "]")) + more;
  }

  /** Where the sender stands in the push. */
  lemma SenderOccurs(ps: seq<string>, w: string, sender: string, rest: seq<string>)
    requires |ps| > 24 && ps[17] == w && ps[18..] == [":", sender, ",", "cursors"] + rest && rest != []
    ensures At(Quoted(ps), Start(ps, 17) - 1, Tag(w) + ":" + ("\"" + sender + "\""))
  {
    hide *;
    var more := "," + "\"" + "cursors" + "\"" + Quoted(rest);
    assert ps[17..] == [w] + ps[18..];
    QuotedOne(w, ps[18..]);
    QuotedFive(":", sender, ",", "cursors", rest);
    assert Quoted(ps[18..]) == ":" + "\"" + sender + "\"" + more;
    SpellsSender(w, sender, more);
    PieceStarts(ps, 17, Tag(w) + ":" + ("\"" + sender + "\""));
  }

  /** Where the cursor array stands in the push. */
  lemma ListOccurs(ps: seq<string>, w: string, nums: seq<u64>)
    requires |ps| > 24 && ps[21] == w && ps[22..] == Rest(":[", nums)
    ensures At(Quoted(ps), Start(ps, 21) - 1, Tag(w) + ":" + ("[" + Items(nums) + "]"))
  {
    hide *;
    assert ps[21..] == [w] + ps[22..];
    QuotedOne(w, ps[22..]);
    RestSpellsItems(":[", nums);
    ClosingStarts();
    assert Quoted(ps[22..]) == ":[" + Items(nums) + ("]" + Closing()[1..]);
    SpellsList(w, Items(nums), Closing()[1..]);
    PieceStarts(ps, 21, Tag(w) + ":" + ("[" + Items(nums) + "]"));
  }

  lemma ClosingStarts()
    ensures Closing() != "" && Closing() == "]" + Closing()[1..]
  {
  }

  lemma PlainHasNoQuote(sender: string)
    requires Plain(sender)
    ensures NoQuote(sender)
  {
  }

  lemma RelayIs(sender: string, nums: seq<u64>)
    ensures Relay(sender, nums) == Quoted(Pieces(sender, nums))
  {
  }

  /** Cursor text round trip: the push made of a printed cursor array is read back as the sender and
      the same numbers, in pairs, for every sender but the two whose id looks like a key. */
  lemma RelayIsRead(sender: string, nums: seq<u64>)
    requires Plain(sender) && nums != [] && Exact(nums)
    ensures Parse(Relay(sender, nums)) ==
      if sender == "user_uuid" || sender == "cursors" then Fallback else Parsed(sender, Paired(nums))
  {
    hide *;
    var ps := Pieces(sender, nums);
    PlainHasNoQuote(sender);
    PiecesAre(sender, nums);
    TagsAre();
    RelayIs(sender, nums);
    PieceIsTagged(ps, 13);
    SenderOccurs(ps, "user_uuid", sender, Rest(":[", nums));
    ListOccurs(ps, "cursors", nums);
    OnlyPiece(ps, 17, "user_uuid");
    OnlyPiece(ps, 21, "cursors");
    PushIsRead(Relay(sender, nums), sender, nums, Start(ps, 17) - 1, Start(ps, 21) - 1, Start(ps, 13) - 1);
  }
}
