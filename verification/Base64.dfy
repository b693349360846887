/** Standard base64 and the encoder's split of a base64 tail off the message content. */
module Base64 {
  import opened Basics
  import opened Bits
  import opened ConvertBits
  import Utf

  const TAIL_MIN_LEN := 64

  predicate InAlphabet(c: char)
  {
    'A' <= c <= 'Z' || 'a' <= c <= 'z' || '0' <= c <= '9' || c == '+' || c == '/'
  }

  function Symbol(v: nat): (c: char)
    requires v < 64
    ensures InAlphabet(c)
  {
    if v < 26 then (65 + v) as char
    else if v < 52 then (97 + v - 26) as char
    else if v < 62 then (48 + v - 52) as char
    else if v == 62 then '+'
    else '/'
  }

  const ALPHABET := "ABCDEFGHIJKLMNOPQRSTUVWXYZ" + "abcdefghijklmnopqrstuvwxyz" + "0123456789" + "+/"

  /** The standard alphabet, in order. */
  lemma SymbolsAreTheAlphabet(v: nat)
    requires v < 64
    ensures |ALPHABET| == 64 && Symbol(v) == ALPHABET[v]
  {
  }

  function SymbolValue(c: char): (v: nat)
    requires InAlphabet(c)
    ensures v < 64 && Symbol(v) == c
  {
    if 'A' <= c <= 'Z' then c as int - 65
    else if 'a' <= c <= 'z' then c as int - 97 + 26
    else if '0' <= c <= '9' then c as int - 48 + 52
    else if c == '+' then 62
    else 63
  }

  function Symbols(values: seq<nat>): (r: string)
    requires Within(values, 6)
    ensures |r| == |values|
  {
    assert Pow2(6) == 64;
    seq(|values|, i requires 0 <= i < |values| => Symbol(values[i]))
  }

  function SymbolValues(s: string): (r: seq<nat>)
    requires forall c :: c in s ==> InAlphabet(c)
    ensures |r| == |s| && Within(r, 6)
  {
    assert Pow2(6) == 64;
    seq(|s|, i requires 0 <= i < |s| => SymbolValue(s[i]))
  }

  /** The six-bit groups of `raw`, the last filled up with zeros. */
  function Sextets(raw: seq<byte>): (r: seq<nat>)
    ensures Within(r, 6)
  {
    var bits := BitString(raw, 8);
    SextetsWithin(bits);
    Groups(bits, 6) + PaddedGroup(Leftover(bits, 6), 6)
  }

  lemma SextetsWithin(bits: seq<bool>)
    ensures Within(Groups(bits, 6) + PaddedGroup(Leftover(bits, 6), 6), 6)
  {
    var _ := PaddedSpells(bits, 6);
  }

  /** `base64.b64encode(raw)`. */
  function Encode(raw: seq<byte>): string
  {
    Symbols(Sextets(raw)) + seq((3 - |raw| % 3) % 3, _ => '=')
  }

  /** The octets of an unpadded run of symbols; bits short of an octet are dropped. */
  function Octets(body: string): (r: seq<byte>)
    requires forall c :: c in body ==> InAlphabet(c)
  {
    var bits := BitString(SymbolValues(body), 6);
    GroupsWithin(bits, 8);
    assert Pow2(8) == 256;
    Groups(bits, 8)
  }

  /** Trailing `=` characters, at most two. */
  function Pads(s: string): (n: nat)
    ensures n <= 2 && n <= |s|
    ensures forall i :: |s| - n <= i < |s| ==> s[i] == '='
    ensures n < 2 && n < |s| ==> s[|s| - 1 - n] != '='
  {
    if |s| >= 1 && s[|s| - 1] == '=' then
      if |s| >= 2 && s[|s| - 2] == '=' then 2 else 1
    else 0
  }

  /** `base64.b64decode(s, validate=True)`, `None` where it raises. */
  function Decode(s: string): Option<seq<byte>>
  {
    var body := s[..|s| - Pads(s)];
    if |s| % 4 == 0 && (forall c :: c in body ==> InAlphabet(c)) then Some(Octets(body)) else None
  }

  lemma QuadArithmetic(octets: nat, groups: nat, left: nat)
    requires groups * 6 + left == octets * 8 && left < 6
    ensures (groups + (if left == 0 then 0 else 1) + (3 - octets % 3) % 3) % 4 == 0
  {
    var q, r := octets / 3, octets % 3;
    assert octets == 3 * q + r;
    assert groups == 4 * q + r;
  }

  lemma EncodeLength(raw: seq<byte>)
    ensures |Encode(raw)| % 4 == 0
  {
    RegroupLength(raw, 8, 6);
    QuadArithmetic(|raw|, |Groups(BitString(raw, 8), 6)|, |Leftover(BitString(raw, 8), 6)|);
  }

  lemma WholeQuads(quads: nat, octets: nat, left: nat)
    requires octets * 8 + left == quads * 6 && left < 8 && quads % 4 == 0
    ensures left == 0 && octets % 3 == 0
  {
    assert quads == 4 * (quads / 4);
    assert octets == 3 * (quads / 4);
  }

  lemma QuadsRegroup(values: seq<nat>)
    requires |values| % 4 == 0 && Within(values, 6)
    ensures var octets := Groups(BitString(values, 6), 8);
            && |octets| % 3 == 0
            && Groups(BitString(octets, 8), 6) == values && Leftover(BitString(octets, 8), 6) == []
  {
    RegroupLength(values, 6, 8);
    WholeQuads(|values|, |Groups(BitString(values, 6), 8)|, |Leftover(BitString(values, 6), 8)|);
    RegroupExact(values, 6, 8);
  }

  lemma SymbolsOfValues(body: string)
    requires forall c :: c in body ==> InAlphabet(c)
    ensures Symbols(SymbolValues(body)) == body
  {
  }

  /** Whole quads of symbols decode to octets that encode back to them. */
  lemma EncodeOfOctets(body: string)
    requires |body| % 4 == 0 && forall c :: c in body ==> InAlphabet(c)
    ensures Encode(Octets(body)) == body
  {
    var values := SymbolValues(body);
    QuadsRegroup(values);
    assert Sextets(Octets(body)) == values by {
      assert values + [] == values;
    }
    SymbolsOfValues(body);
    assert body + [] == body;
  }

  // -- the tail split -----------------------------------------------------------

  /** Alphabet characters at the end of `s`. */
  function TrailingRun(s: string): (n: nat)
    ensures n <= |s|
    ensures forall i :: |s| - n <= i < |s| ==> InAlphabet(s[i])
    ensures n < |s| ==> !InAlphabet(s[|s| - n - 1])
  {
    if s != [] && InAlphabet(s[|s| - 1]) then 1 + TrailingRun(s[..|s| - 1]) else 0
  }

  /** The whole quads of alphabet characters `content` ends in. */
  function Tail(content: string): (tail: string)
    ensures |tail| <= |content| && tail == content[|content| - |tail|..]
    ensures |tail| % 4 == 0 && forall c :: c in tail ==> InAlphabet(c)
    ensures |tail| <= TrailingRun(content) < |tail| + 4
    ensures |tail| + TrailingRun(content) % 4 == TrailingRun(content)
  {
    var aligned := TrailingRun(content) / 4 * 4;
    RunCharacters(content, aligned);
    content[|content| - aligned..]
  }

  lemma RunCharacters(s: string, n: nat)
    requires n <= TrailingRun(s)
    ensures forall c :: c in s[|s| - n..] ==> InAlphabet(c)
  {
    var tail := s[|s| - n..];
    forall c | c in tail ensures InAlphabet(c) {
      var i :| 0 <= i < |tail| && tail[i] == c;
      assert c == s[|s| - n + i];
    }
  }

  /** The content divides before its tail, when that is at least 64 characters long. */
  function SplitTail(content: string): Option<(string, seq<byte>)>
  {
    var tail := Tail(content);
    if |tail| >= TAIL_MIN_LEN then Some((content[..|content| - |tail|], Octets(tail))) else None
  }

  /** What the split divides, re-encoding the tail puts back together. */
  lemma SplitRebuilds(content: string)
    requires SplitTail(content).Some?
    ensures var (head, raw) := SplitTail(content).value;
            head + Encode(raw) == content
  {
    EncodeOfOctets(Tail(content));
  }

  lemma {:induction false} RunIsLongest(s: string, n: nat)
    requires n <= |s| && (forall i :: |s| - n <= i < |s| ==> InAlphabet(s[i]))
    requires n < |s| ==> !InAlphabet(s[|s| - n - 1])
    ensures TrailingRun(s) == n
  {
    if n > 0 {
      RunIsLongest(s[..|s| - 1], n - 1);
    }
  }

  lemma {:induction false} Utf8AtLeastAsLong(s: string)
    ensures |Utf.Utf8(s)| >= |s|
  {
    if s != [] {
      Utf8AtLeastAsLong(s[1..]);
    }
  }

  /** Symbols counted in whole quads, then padding: never the length of a base64 encoding. */
  lemma PaddedTailIsNotAnEncoding(tail: string, symbols: nat, pads: nat, raw: seq<byte>)
    requires |tail| == symbols + pads && symbols % 4 == 0 && 0 < pads <= 2
    ensures Encode(raw) != tail
  {
    EncodeLength(raw);
  }

  /** Whole quads of alphabet characters always decode, and re-encode to themselves. */
  lemma UnpaddedTailIsAnEncoding(tail: string)
    requires |tail| % 4 == 0 && forall c :: c in tail ==> InAlphabet(c)
    ensures Decode(tail) == Some(Octets(tail)) && Encode(Octets(tail)) == tail
  {
    if tail != [] {
      assert tail[|tail| - 1] in tail;
    }
    assert Pads(tail) == 0 && tail[..|tail|] == tail;
    EncodeOfOctets(tail);
  }

  /** The scan back over the padding and then over the alphabet. */
  method ScanTail(content: string) returns (start: nat, end: nat)
    ensures start <= end <= |content| <= end + 2
    ensures end < |content| <==> content != [] && content[|content| - 1] == '='
    ensures end == |content| ==> end - start == TrailingRun(content)
  {
    end := |content|;
    var pads := 0;
    while pads < 2 && end > 0 && content[end - 1] == '='
      invariant end + pads == |content| && 0 <= pads <= 2
      invariant pads > 0 ==> content[|content| - 1] == '='
    {
      end, pads := end - 1, pads + 1;
    }
    start := end;
    while start > 0 && InAlphabet(content[start - 1])
      invariant 0 <= start <= end
      invariant forall i :: start <= i < end ==> InAlphabet(content[i])
    {
      start := start - 1;
    }
    if end == |content| {
      RunIsLongest(content, end - start);
    }
  }

  lemma SplitEncoding(content: string, start: nat, tail: string, raw: seq<byte>)
    requires start <= |content| && content[start..] == tail && Decode(tail) == Some(raw) && Encode(raw) == tail
    ensures SplitAt(content, start) == if |tail| < TAIL_MIN_LEN then None else Some((content[..start], raw))
  {
  }

  lemma SplitUnpadded(content: string, start: nat)
    requires start + |Tail(content)| == |content|
    ensures SplitAt(content, start) == SplitTail(content)
  {
    var tail := Tail(content);
    UnpaddedTailIsAnEncoding(tail);
    SplitEncoding(content, start, tail, Octets(tail));
  }

  /** The split at a given place, if what follows is long enough and an encoding. */
  function SplitAt(content: string, start: nat): Option<(string, seq<byte>)>
    requires start <= |content|
  {
    var tail := content[start..];
    if |tail| < TAIL_MIN_LEN then None
    else
      var raw :- Decode(tail);
      if Encode(raw) != tail then None else Some((content[..start], raw))
  }

  lemma SplitPadded(content: string, start: nat, end: nat)
    requires start <= end < |content| <= end + 2 && (end - start) % 4 == 0
    requires content[|content| - 1] == '='
    ensures SplitTail(content) == None && SplitAt(content, start) == None
  {
    var tail := content[start..];
    forall raw: seq<byte> ensures Encode(raw) != tail {
      PaddedTailIsNotAnEncoding(tail, end - start, |content| - end, raw);
    }
  }

  lemma ShortContentHasNoTail(content: string)
    requires |Utf.Utf8(content)| < TAIL_MIN_LEN
    ensures SplitTail(content) == None
  {
    Utf8AtLeastAsLong(content);
  }

  /** Wherever the scans end, the split at the aligned start is the split. */
  lemma SplitAligned(content: string, start: nat, end: nat, aligned: nat)
    requires start <= end <= |content| <= end + 2 && aligned == start + (end - start) % 4
    requires end < |content| <==> content != [] && content[|content| - 1] == '='
    requires end == |content| ==> end - start == TrailingRun(content)
    ensures aligned <= |content| && SplitAt(content, aligned) == SplitTail(content)
  {
    if end == |content| {
      SplitUnpadded(content, aligned);
    } else {
      SplitPadded(content, aligned, end);
    }
  }

  /**
   * The encoder's split. The alignment counts the symbols before the padding only, so a padded
   * tail never has a length that a base64 encoding can have: content that ends in `=` is not split.
   */
  method SplitB64Tail(content: string) returns (r: Option<(string, seq<byte>)>)
    ensures r == SplitTail(content)
  {
    if |Utf.Utf8(content)| < TAIL_MIN_LEN {
      ShortContentHasNoTail(content);
      return None;
    }
    var start, end := ScanTail(content);
    var aligned := start + (end - start) % 4;
    SplitAligned(content, start, end, aligned);
    r := TakeTail(content, aligned);
  }

  method TakeTail(content: string, start: nat) returns (r: Option<(string, seq<byte>)>)
    requires start <= |content|
    ensures r == SplitAt(content, start)
  {
    var tail := content[start..];
    if |tail| < TAIL_MIN_LEN {
      return None;
    }
    var decoded := Decode(tail);
    if decoded.None? || Encode(decoded.value) != tail {
      return None;
    }
    return Some((content[..start], decoded.value));
  }
}
