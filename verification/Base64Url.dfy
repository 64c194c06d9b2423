/** Unpadded base64url text, as in sections 3.2 and 5 of RFC 4648. */
module Base64Url {
  import opened Common

  type Byte = b: int | 0 <= b < 256
  type Sextet = v: int | 0 <= v < 64

  function Letter(v: Sextet): char {
    if v < 26 then ('A' as int + v) as char
    else if v < 52 then ('a' as int + (v - 26)) as char
    else if v < 62 then ('0' as int + (v - 52)) as char
    else if v == 62 then '-' else '_'
  }

  /** Decoding also lets the letters of the ordinary alphabet through. */
  function Value(c: char): Option<Sextet> {
    if 'A' <= c <= 'Z' then Some(c as int - 'A' as int)
    else if 'a' <= c <= 'z' then Some(c as int - 'a' as int + 26)
    else if '0' <= c <= '9' then Some(c as int - '0' as int + 52)
    else if c == '-' || c == '+' then Some(62) else if c == '_' || c == '/' then Some(63) else None
  }

  lemma LettersHaveValues(v: Sextet)
    ensures Value(Letter(v)) == Some(v) && Letter(v) !in "=.+/"
  {
  }

  predicate InAlphabet(text: string) {
    forall i :: 0 <= i < |text| ==> Value(text[i]).Some?
  }

  /** Four letters for three bytes. */
  function Quad(a: Byte, b: Byte, c: Byte): string {
    [Letter(a / 4), Letter(a % 4 * 16 + b / 16), Letter(b % 16 * 4 + c / 64), Letter(c % 64)]
  }

  function Encode(bytes: seq<Byte>): string {
    if |bytes| == 0 then ""
    else if |bytes| == 1 then [Letter(bytes[0] / 4), Letter(bytes[0] % 4 * 16)]
    else if |bytes| == 2 then
      [Letter(bytes[0] / 4), Letter(bytes[0] % 4 * 16 + bytes[1] / 16), Letter(bytes[1] % 16 * 4)]
    else
      Quad(bytes[0], bytes[1], bytes[2]) + Encode(bytes[3..])
  }

  /** The bytes of letters without padding; leftover bits of the last letter are dropped. */
  function DecodeLetters(text: string): Option<seq<Byte>>
    requires InAlphabet(text)
  {
    if |text| == 0 then Some([])
    else if |text| == 1 then None
    else
      var a, b := Value(text[0]).value, Value(text[1]).value;
      if |text| == 2 then Some([a * 4 + b / 16])
      else
        var c := Value(text[2]).value;
        if |text| == 3 then Some([a * 4 + b / 16, b % 16 * 16 + c / 4])
        else
          match DecodeLetters(text[4..])
          case None => None
          case Some(rest) => Some([a * 4 + b / 16, b % 16 * 16 + c / 4, c % 4 * 64 + Value(text[3]).value] + rest)
  }

  function Padding(n: nat): string {
    if n % 4 == 0 then "" else if n % 4 == 1 then "===" else if n % 4 == 2 then "==" else "="
  }

  function WithoutPadding(text: string): string {
    if |text| > 0 && text[|text| - 1] == '=' then WithoutPadding(text[..|text| - 1]) else text
  }

  /** Strict decoding after the missing padding has been put back. */
  function Decode(text: string): Option<seq<Byte>> {
    var padded := text + Padding(|text|);
    var letters := WithoutPadding(padded);
    if |padded| - |letters| > 2 || !InAlphabet(letters) then None else DecodeLetters(letters)
  }

  /** How long the text of `n` bytes is. */
  function EncodedLength(n: nat): nat {
    n / 3 * 4 + (if n % 3 == 0 then 0 else n % 3 + 1)
  }

  lemma {:induction false} EncodeShape(bytes: seq<Byte>)
    ensures InAlphabet(Encode(bytes)) && |Encode(bytes)| == EncodedLength(|bytes|)
    ensures forall c :: c in Encode(bytes) ==> c !in "=.+/"
  {
    forall v: Sextet ensures Value(Letter(v)).Some? && Letter(v) !in "=.+/" {
      LettersHaveValues(v);
    }
    if |bytes| >= 3 {
      EncodeShape(bytes[3..]);
    }
  }

  lemma QuadThenRest(a: Byte, b: Byte, c: Byte, text: string, rest: seq<Byte>)
    requires InAlphabet(text) && DecodeLetters(text) == Some(rest)
    ensures InAlphabet(Quad(a, b, c) + text) && DecodeLetters(Quad(a, b, c) + text) == Some([a, b, c] + rest)
  {
    QuadDecodes(a, b, c);
    assert (Quad(a, b, c) + text)[4..] == text;
  }

  lemma PairDecodes(a: Byte, b: Byte)
    ensures InAlphabet(Encode([a, b])) && DecodeLetters(Encode([a, b])) == Some([a, b])
  {
    QuadDecodes(a, b, 0);
  }

  lemma OneDecodes(a: Byte)
    ensures InAlphabet(Encode([a])) && DecodeLetters(Encode([a])) == Some([a])
  {
  }

  lemma {:induction false} LettersDecode(bytes: seq<Byte>)
    requires InAlphabet(Encode(bytes))
    ensures DecodeLetters(Encode(bytes)) == Some(bytes)
  {
    if |bytes| >= 3 {
      var rest := bytes[3..];
      assert bytes == [bytes[0], bytes[1], bytes[2]] + rest;
      EncodeShape(rest);
      LettersDecode(rest);
      QuadThenRest(bytes[0], bytes[1], bytes[2], Encode(rest), rest);
    } else if |bytes| == 2 {
      PairDecodes(bytes[0], bytes[1]);
      assert bytes == [bytes[0], bytes[1]];
    } else if |bytes| == 1 {
      OneDecodes(bytes[0]);
      assert bytes == [bytes[0]];
    }
  }

  lemma QuadDecodes(a: Byte, b: Byte, c: Byte)
    ensures Value(Letter(a / 4)) == Some(a / 4) && Value(Letter(a % 4 * 16 + b / 16)) == Some(a % 4 * 16 + b / 16)
    ensures Value(Letter(b % 16 * 4 + c / 64)) == Some(b % 16 * 4 + c / 64) && Value(Letter(c % 64)) == Some(c % 64)
    ensures a / 4 * 4 + (a % 4 * 16 + b / 16) / 16 == a
    ensures (a % 4 * 16 + b / 16) % 16 * 16 + (b % 16 * 4 + c / 64) / 4 == b
    ensures (b % 16 * 4 + c / 64) % 4 * 64 + c % 64 == c
  {
  }

  lemma {:induction false} PaddingComesOff(text: string, padding: string)
    requires '=' !in text && forall i :: 0 <= i < |padding| ==> padding[i] == '='
    ensures WithoutPadding(text + padding) == text
  {
    if padding == "" {
      assert text + padding == text;
      assert |text| > 0 ==> text[|text| - 1] in text;
    } else {
      var padded := text + padding;
      assert padded[..|padded| - 1] == text + padding[..|padding| - 1];
      PaddingComesOff(text, padding[..|padding| - 1]);
    }
  }

  lemma PaddingIsShort(bytes: seq<Byte>)
    ensures |Padding(EncodedLength(|bytes|))| <= 2
  {
  }

  /** Decoding undoes encoding. */
  lemma DecodeUndoesEncode(bytes: seq<Byte>)
    ensures Decode(Encode(bytes)) == Some(bytes)
  {
    EncodeShape(bytes);
    PaddingIsShort(bytes);
    PaddingComesOff(Encode(bytes), Padding(|Encode(bytes)|));
    LettersDecode(bytes);
  }
}
