/** Chinese ordinal numerals and chapter-index extraction
    (`_chinese_to_number` and `_extract_chapter_index`). */
module Ordinals {
  import opened Text

  /** The ten cardinal numerals, in order of value. */
  const Numerals: string := "一二三四五六七八九十"

  /** The class `[一二三四五六七八九十]`. */
  predicate IsNumeral(c: char)
  {
    c in Numerals
  }

  /** The preprocessor's lookup table `chinese_numbers`. */
  const NumberTable: map<string, string> :=
    map["一" := "1", "二" := "2", "三" := "3", "四" := "4", "五" := "5",
        "六" := "6", "七" := "7", "八" := "8", "九" := "9", "十" := "10"]

  /** Decimal notation of `n`, the reference the table is checked against. */
  function Decimal(n: nat): (r: string)
    ensures |r| >= 1
    ensures forall i :: 0 <= i < |r| ==> IsAsciiDigit(r[i])
  {
    if n < 10 then [('0' as int + n) as char] else Decimal(n / 10) + Decimal(n % 10)
  }

  /** The value of a numeral: its position in `Numerals`, counting from one. */
  function NumeralValue(c: char): (v: nat)
    requires IsNumeral(c)
    ensures 1 <= v <= 10 && Numerals[v - 1] == c
  {
    if c == '一' then 1 else if c == '二' then 2 else if c == '三' then 3
    else if c == '四' then 4 else if c == '五' then 5 else if c == '六' then 6
    else if c == '七' then 7 else if c == '八' then 8 else if c == '九' then 9
    else 10
  }

  /** True of a token that is exactly one numeral. */
  predicate IsNumeralToken(token: string)
  {
    |token| == 1 && IsNumeral(token[0])
  }

  /** `_chinese_to_number`: a single numeral becomes its decimal value; any
      other token comes back unchanged. */
  function ChineseToNumber(token: string): (r: string)
    ensures IsNumeralToken(token) ==> r == Decimal(NumeralValue(token[0]))
    ensures !IsNumeralToken(token) ==> r == token
  {
    if token in NumberTable then NumberTable[token] else NumeralTokenInTable(token); token
  }

  lemma NumeralTokenInTable(token: string)
    ensures IsNumeralToken(token) ==> token in NumberTable
  {
    if IsNumeralToken(token) {
      assert token == [token[0]];
      var c := token[0];
      assert c == '一' || c == '二' || c == '三' || c == '四' || c == '五' ||
             c == '六' || c == '七' || c == '八' || c == '九' || c == '十';
    }
  }

  /** `^([一二三四五六七八九十])、` */
  predicate OrdinalCommaPrefix(title: string)
  {
    |title| >= 2 && IsNumeral(title[0]) && title[1] == '、'
  }

  /** `^（([一二三四五六七八九十])）` with fullwidth parentheses. */
  predicate ParenOrdinalPrefix(title: string)
  {
    |title| >= 3 && title[0] == '（' && IsNumeral(title[1]) && title[2] == '）'
  }

  /** Length of the digit group of `^([0-9]+)\.`, or 0 when it does not match. */
  function DigitsBeforeDot(title: string): (k: nat)
    ensures k > 0 ==> k < |title| && title[k] == '.' && forall i :: 0 <= i < k ==> IsAsciiDigit(title[i])
  {
    var k := Span(title, IsAsciiDigit);
    if k >= 1 && k < |title| && title[k] == '.' then k else 0
  }

  const Unknown: string := "未知"

  /** `_extract_chapter_index`: tries `X、` (resolved to decimal), then `（X）`
      (the numeral itself, unresolved), then `digits.` (the digits), and
      otherwise answers "未知"; it never fails. */
  function ExtractChapterIndex(title: string): (r: string)
    ensures r != []
    ensures OrdinalCommaPrefix(title) ==> r == Decimal(NumeralValue(title[0]))
    ensures !OrdinalCommaPrefix(title) && ParenOrdinalPrefix(title) ==> r == [title[1]] && IsNumeral(r[0])
    ensures !OrdinalCommaPrefix(title) && !ParenOrdinalPrefix(title) && DigitsBeforeDot(title) > 0 ==>
              StartsWith(title, r + ".") && forall i :: 0 <= i < |r| ==> IsAsciiDigit(r[i])
    ensures r == Unknown <==>
              !OrdinalCommaPrefix(title) && !ParenOrdinalPrefix(title) && DigitsBeforeDot(title) == 0
  {
    if OrdinalCommaPrefix(title) then ChineseToNumber(title[..1])
    else if ParenOrdinalPrefix(title) then title[1..2]
    else if DigitsBeforeDot(title) > 0 then title[..DigitsBeforeDot(title)]
    else Unknown
  }
}
