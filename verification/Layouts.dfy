/** The sizes of the ITCH messages, field by field. */
module Layouts {
  import opened Widths
  import opened ItchParser

  // Field widths in bytes.

  const CHAR := 1
  const SHORT := 2
  const WORD := 4
  const LONG := 8
  const TIMESTAMP := 6
  const SYMBOL := 8
  const PRICE4 := 4
  const PRICE8 := 8
  const MPID := 4

  /** Every message starts with its tag, the locate code, the tracking number and the timestamp. */
  const COMMON := CHAR + SHORT + SHORT + TIMESTAMP

  /** The size of a message, by its tag. */
  function SizeOf(tag: char): nat
    requires tag as int < 0x100
  {
    BodyLen(tag as int)
  }

  /** What the first three rows of a table say of a tag. */
  ghost predicate ThreeRows(s: Sizes, tag: u8) {
    s.Row? && s.more.Row? && s.more.more.Row? &&
    SizeIn(s, tag) ==
    if s.tag as int == tag then s.size
    else if s.more.tag as int == tag then s.more.size
    else if s.more.more.tag as int == tag then s.more.more.size
    else SizeIn(s.more.more.more, tag)
  }

  lemma Skip(s: Sizes, tag: u8)
    requires s.Row? && s.more.Row? && s.more.more.Row?
    ensures ThreeRows(s, tag)
  {
    assert SizeIn(s.more.more, tag) ==
           if s.more.more.tag as int == tag then s.more.more.size else SizeIn(s.more.more.more, tag);
  }

  /** A tag looked up in all tables. */
  lemma Find(tag: u8)
    ensures ThreeRows(SIZES, tag) && ThreeRows(SIZES.more.more.more, tag)
    ensures ThreeRows(HALT_SIZES, tag) && ThreeRows(HALT_SIZES.more, tag)
    ensures ThreeRows(ORDER_SIZES, tag) && ThreeRows(ORDER_SIZES.more.more.more, tag)
    ensures ThreeRows(ORDER_SIZES.more.more.more.more, tag)
    ensures ThreeRows(TRADE_SIZES, tag) && ThreeRows(AUCTION_SIZES, tag)
  {
    Skip(SIZES, tag);
    Skip(SIZES.more.more.more, tag);
    Skip(HALT_SIZES, tag);
    Skip(HALT_SIZES.more, tag);
    Skip(ORDER_SIZES, tag);
    Skip(ORDER_SIZES.more.more.more, tag);
    Skip(ORDER_SIZES.more.more.more.more, tag);
    Skip(TRADE_SIZES, tag);
    Skip(AUCTION_SIZES, tag);
  }

  lemma DirectorySizes()
    ensures SizeOf('S') == COMMON + CHAR
    ensures SizeOf('R') == COMMON + SYMBOL + 2 * CHAR + WORD + 2 * CHAR + 2 * CHAR + 5 * CHAR + WORD + CHAR
    ensures SizeOf('H') == COMMON + SYMBOL + 2 * CHAR + 4 * CHAR
    ensures SizeOf('Y') == COMMON + SYMBOL + CHAR
    ensures SizeOf('L') == COMMON + MPID + SYMBOL + 3 * CHAR
    ensures SizeOf('V') == COMMON + 3 * PRICE8
    ensures SizeOf('W') == COMMON + CHAR
    ensures SizeOf('K') == COMMON + SYMBOL + WORD + CHAR + PRICE4
    ensures SizeOf('J') == COMMON + SYMBOL + 4 * PRICE4
    ensures SizeOf('h') == COMMON + SYMBOL + 2 * CHAR
  {
    Find('S' as int);
    Find('R' as int);
    Find('H' as int);
    Find('Y' as int);
    Find('L' as int);
    Find('V' as int);
    Find('W' as int);
    Find('K' as int);
    Find('J' as int);
    Find('h' as int);
  }

  lemma OrderSizes()
    ensures SizeOf('A') == COMMON + LONG + CHAR + WORD + SYMBOL + PRICE4
    ensures SizeOf('F') == COMMON + LONG + CHAR + WORD + SYMBOL + PRICE4 + MPID
    ensures SizeOf('E') == COMMON + LONG + WORD + LONG
    ensures SizeOf('C') == COMMON + LONG + WORD + LONG + CHAR + PRICE4
    ensures SizeOf('X') == COMMON + LONG + WORD
    ensures SizeOf('D') == COMMON + LONG
    ensures SizeOf('U') == COMMON + 2 * LONG + WORD + PRICE4
  {
    Find('A' as int);
    Find('F' as int);
    Find('E' as int);
    Find('C' as int);
    Find('X' as int);
    Find('D' as int);
    Find('U' as int);
  }

  lemma TradeSizes()
    ensures SizeOf('P') == COMMON + LONG + CHAR + WORD + SYMBOL + PRICE4 + LONG
    ensures SizeOf('Q') == COMMON + LONG + SYMBOL + PRICE4 + LONG + CHAR
    ensures SizeOf('B') == COMMON + LONG
    ensures SizeOf('I') == COMMON + 2 * LONG + CHAR + SYMBOL + 3 * PRICE4 + 2 * CHAR
    ensures SizeOf('N') == COMMON + SYMBOL + CHAR
    ensures SizeOf('O') == COMMON + SYMBOL + CHAR + 3 * PRICE4 + LONG + 2 * PRICE4
  {
    Find('P' as int);
    Find('Q' as int);
    Find('B' as int);
    Find('I' as int);
    Find('N' as int);
    Find('O' as int);
  }

  /** There is no other message. */
  lemma KnownTags(tag: u8)
    ensures Known(tag) <==> tag as char in "SRHYLVWKJhAFECXDUPQBINO"
  {
    Find(tag);
  }
}
