/** Letters without their case, in ASCII. */
module Ascii {
  function LowerChar(c: char): char { if 'A' <= c <= 'Z' then c + 32 as char else c }
}
