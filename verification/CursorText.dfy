/** Cursor numbers as text: the hand-written printer of a message. */
module CursorText {
  import opened Seq32

  // ---- printing ----

  predicate IsDigit(c: char) { '0' <= c <= '9' }

  function Digit(d: int): char
    requires 0 <= d < 10
  {
    '0' + d as char
  }

  function ValueOf(c: char): (d: int)
    requires IsDigit(c)
    ensures 0 <= d < 10
  {
    c as int - '0' as int
  }

  function Decimal(v: nat): (s: string)
    ensures |s| > 0 && forall k :: 0 <= k < |s| ==> IsDigit(s[k])
  {
    if v < 10 then [Digit(v)] else Decimal(v / 10) + [Digit(v % 10)]
  }

  function Signed(v: int): string { if v < 0 then "-" + Decimal(-v) else Decimal(v) }

  function Cursor(row: u64, col: u64): string {
    "{\"row\":" + Decimal(row) + ",\"column\":" + Decimal(col) + "}"
  }

  function Second(nums: seq<u64>): u64 { if |nums| > 1 then nums[1] else 0 }

  function After2(nums: seq<u64>): (r: seq<u64>)
    ensures nums != [] ==> |r| < |nums|
  {
    if |nums| > 2 then nums[2..] else []
  }

  function Comma(more: bool): string { if more then "," else "" }

  /** The cursor array, two numbers to a cursor; a lone last number gets a zero beside it. */
  function Items(nums: seq<u64>): string
    decreases |nums|
  {
    if nums == [] then ""
    else Cursor(nums[0], Second(nums)) + Comma(|nums| > 2) + Items(After2(nums))
  }

  /** The numbers as a reader sees them: in pairs. */
  function Paired(nums: seq<u64>): seq<u64> { if |nums| % 2 == 1 then nums + [0] else nums }

  function Head(): string { "{\"rpc\":{\"method\":\"shared_editor_change_cursors\",\"data\":{\"cursors\":[" }

  function RoomKey(): string { "],\"ranges\":[],\"room\":\"" }

  function UserKey(): string { "\",\"user\":\"" }

  function IdKey(): string { "\"}},\"id\":" }

  function Message(nums: seq<u64>, room: string, user: string, id: int): string {
    Head() + Items(nums) + RoomKey() + room + UserKey() + user + IdKey() + Signed(id) + "}"
  }

  method AppendChunkMessage(dst: string, nums: seq<u64>, room: string, user: string, id: int) returns (out: string)
    ensures out == dst + Message(nums, room, user, id)
  {
    hide *;
    out := dst + Head();
    out := AppendCursors(out, nums);
    out := out + RoomKey();
    out := out + room;
    out := out + UserKey();
    out := out + user;
    out := out + IdKey();
    out := out + Signed(id);
    out := out + "}";
    MessageIs(dst, nums, room, user, id);
  }

  lemma MessageIs(dst: string, nums: seq<u64>, room: string, user: string, id: int)
    ensures dst + Message(nums, room, user, id)
         == dst + Head() + Items(nums) + RoomKey() + room + UserKey() + user + IdKey() + Signed(id) + "}"
  {
    hide Head, RoomKey, UserKey, IdKey, Items, Signed;
  }

  method AppendCursors(dst: string, nums: seq<u64>) returns (out: string)
    ensures out == dst + Items(nums)
  {
    hide Cursor, Items;
    out := dst;
    var i := 0;
    assert nums[0..] == nums;
    while i < |nums|
      invariant 0 <= i <= |nums| + 1
      invariant dst + Items(nums) == out + Comma(0 < i < |nums|) + Items(nums[if i <= |nums| then i else |nums|..])
    {
      var rest := nums[i..];
      ItemsNext(rest);
      if i > 0 {
        out := out + ",";
      }
      out := AppendCursor(out, rest[0], Second(rest));
      i := i + 2;
      assert After2(rest) == nums[if i <= |nums| then i else |nums|..];
    }
    assert nums[if i <= |nums| then i else |nums|..] == [];
    ItemsNone();
    assert out + Comma(false) + Items([]) == out;
  }

  lemma ItemsNext(nums: seq<u64>)
    requires nums != []
    ensures Items(nums) == Cursor(nums[0], Second(nums)) + Comma(|nums| > 2) + Items(After2(nums))
  {
  }

  lemma ItemsNone()
    ensures Items([]) == ""
  {
  }

  method AppendCursor(dst: string, row: u64, col: u64) returns (out: string)
    ensures out == dst + Cursor(row, col)
  {
    hide Decimal;
    out := dst + "{\"row\":";
    out := out + Decimal(row);
    out := out + ",\"column\":";
    out := out + Decimal(col);
    out := out + "}";
  }
}
