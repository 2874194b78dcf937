/**
 Hash functions as parameters.  Nothing is assumed of a hash but the alphabet of its digests, so
 a theorem about all of them either holds outright or points at two inputs that collide.
 */
module Hashing {

  predicate HexDigit(c: char) {
    '0' <= c <= '9' || 'a' <= c <= 'f'
  }

  predicate Hex(s: string) {
    forall c :: c in s ==> HexDigit(c)
  }

  /** SHA-256 read as lower-case hex text, or any other hash with such digests. */
  type Hash = h: string -> string | forall x :: Hex(h(x)) && h(x) != "" witness x => "0"

  /** Two of the given inputs are a collision: different, with the same digest. */
  ghost predicate Collide(h: Hash, xs: iset<string>, ys: iset<string>) {
    exists x, y :: x in xs && y in ys && x != y && h(x) == h(y)
  }
}
