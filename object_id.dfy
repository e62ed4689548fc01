/**
  The database's native identifier, a BSON ObjectId: twelve bytes, written as
  24 hexadecimal digits. The driver's constructor accepts a string only when it
  is exactly 24 hexadecimal digits (either case) and throws otherwise; its
  canonical string form uses lower-case digits.
 */
module ObjectIds {
  import opened Wrappers

  type Byte = x: int | 0 <= x < 256

  /** Twelve bytes. */
  type ObjectId = b: seq<Byte> | |b| == 12 witness seq(12, _ => 0)

  predicate IsHexDigit(c: char) {
    '0' <= c <= '9' || 'a' <= c <= 'f' || 'A' <= c <= 'F'
  }

  /** The test `/^[0-9a-fA-F]{24}$/`: exactly 24 hexadecimal digits, nothing else. */
  predicate IsHex24(s: string) {
    |s| == 24 && forall i :: 0 <= i < |s| ==> IsHexDigit(s[i])
  }

  function DigitValue(c: char): (d: nat)
    requires IsHexDigit(c)
    ensures d < 16
  {
    if '0' <= c <= '9' then c as int - '0' as int
    else if 'a' <= c <= 'f' then c as int - 'a' as int + 10
    else c as int - 'A' as int + 10
  }

  /** The lower-case digit for a value below 16. */
  function LowerDigit(d: nat): (c: char)
    requires d < 16
    ensures IsHexDigit(c) && DigitValue(c) == d
    ensures !('A' <= c <= 'F')
  {
    if d < 10 then ('0' as int + d) as char else ('a' as int + d - 10) as char
  }

  /** Folds the digits 'A'..'F' to 'a'..'f' and leaves every other character alone. */
  function FoldChar(c: char): char {
    if 'A' <= c <= 'F' then (c as int - 'A' as int + 'a' as int) as char else c
  }

  function FoldCase(s: string): (r: string)
    ensures |r| == |s|
  {
    seq(|s|, i requires 0 <= i < |s| => FoldChar(s[i]))
  }

  /** `new ObjectId(s)` for a string `s`: None where the driver throws. */
  function FromHex(s: string): (r: Option<ObjectId>)
    ensures r.Some? <==> IsHex24(s)
  {
    if IsHex24(s) then
      Some(seq(12, i requires 0 <= i < 12 => DigitValue(s[2 * i]) * 16 + DigitValue(s[2 * i + 1])))
    else
      None
  }

  /** The canonical string form of an ObjectId: 24 lower-case hexadecimal digits. */
  function ToHexString(id: ObjectId): (s: string)
    ensures IsHex24(s)
    ensures forall j :: 0 <= j < |s| ==> !('A' <= s[j] <= 'F')
  {
    seq(24, j requires 0 <= j < 24 => LowerDigit(if j % 2 == 0 then id[j / 2] / 16 else id[j / 2] % 16))
  }

  lemma DigitOfValue(c: char)
    requires IsHexDigit(c)
    ensures LowerDigit(DigitValue(c)) == FoldChar(c)
  {
  }

  /** Printing an ObjectId and reading it back gives the same ObjectId. */
  lemma FromHexOfToHexString(id: ObjectId)
    ensures FromHex(ToHexString(id)) == Some(id)
  {
    var s := ToHexString(id);
    var b := FromHex(s).value;
    forall i | 0 <= i < 12
      ensures b[i] == id[i]
    {
      assert s[2 * i] == LowerDigit(id[i] / 16);
      assert s[2 * i + 1] == LowerDigit(id[i] % 16);
      assert b[i] == DigitValue(s[2 * i]) * 16 + DigitValue(s[2 * i + 1]);
    }
    assert b == id;
  }

  /** Reading a 24-digit string and printing it back gives the string with its digits in lower case. */
  lemma ToHexStringOfFromHex(s: string)
    requires IsHex24(s)
    ensures ToHexString(FromHex(s).value) == FoldCase(s)
  {
    var id := FromHex(s).value;
    var t := ToHexString(id);
    forall j | 0 <= j < 24
      ensures t[j] == FoldCase(s)[j]
    {
      var i := j / 2;
      var hi, lo := DigitValue(s[2 * i]), DigitValue(s[2 * i + 1]);
      assert id[i] == hi * 16 + lo;
      assert id[i] / 16 == hi && id[i] % 16 == lo;
      if j % 2 == 0 {
        assert j == 2 * i;
        DigitOfValue(s[2 * i]);
      } else {
        assert j == 2 * i + 1;
        DigitOfValue(s[2 * i + 1]);
      }
    }
  }

  lemma FoldCharValue(c: char)
    requires IsHexDigit(c)
    ensures IsHexDigit(FoldChar(c)) && DigitValue(FoldChar(c)) == DigitValue(c)
  {
  }

  /** The driver reads hexadecimal digits case-insensitively. */
  lemma FromHexOfFoldCase(s: string)
    requires IsHex24(s)
    ensures FromHex(FoldCase(s)) == FromHex(s)
  {
    var t := FoldCase(s);
    forall i | 0 <= i < 24
      ensures IsHexDigit(t[i]) && DigitValue(t[i]) == DigitValue(s[i])
    {
      FoldCharValue(s[i]);
    }
    var a, b := FromHex(t).value, FromHex(s).value;
    forall i | 0 <= i < 12
      ensures a[i] == b[i]
    {
    }
    assert a == b;
  }

  /** An ObjectId whose canonical form is a given 24-digit string, read case-insensitively, is the one built from it. */
  lemma IdOfHexString(id: ObjectId, s: string)
    requires IsHex24(s)
    requires ToHexString(id) == FoldCase(s)
    ensures FromHex(s) == Some(id)
  {
    FromHexOfToHexString(id);
    FromHexOfFoldCase(s);
  }
}
