/** Plain values as the source language sees them: blank text and parsed JSON. */
module Values {
  /** Characters Python's `str.strip` takes off. */
  predicate IsSpace(c: char) {
    var n := c as int;
    || 0x09 <= n <= 0x0D || 0x1C <= n <= 0x20 || n == 0x85 || n == 0xA0 || n == 0x1680 || 0x2000 <= n <= 0x200A
    || n == 0x2028 || n == 0x2029 || n == 0x202F || n == 0x205F || n == 0x3000
  }

  lemma SpacesExactly(c: char)
    ensures IsSpace(c) <==>
              c in "\t\n\r\U{0B}\U{0C}\U{1C}\U{1D}\U{1E}\U{1F} \U{85}\U{A0}\U{1680}\U{2000}\U{2001}\U{2002}\U{2003}" +
                   "\U{2004}\U{2005}\U{2006}\U{2007}\U{2008}\U{2009}\U{200A}\U{2028}\U{2029}\U{202F}\U{205F}\U{3000}"
  {}

  predicate IsBlank(text: string) { forall c :: c in text ==> IsSpace(c) }

  /** Python's `text.split(separator)`; never empty. */
  function Split(text: string, separator: char): (parts: seq<string>)
    ensures parts != []
  {
    if text == "" then [""]
    else
      var rest := Split(text[1..], separator);
      if text[0] == separator then [""] + rest else [[text[0]] + rest[0]] + rest[1..]
  }

  /** Python's `separator.join(parts)`. */
  function Join(parts: seq<string>, separator: char): string {
    if parts == [] then ""
    else if |parts| == 1 then parts[0]
    else Join(parts[..|parts| - 1], separator) + [separator] + parts[|parts| - 1]
  }

  lemma {:induction false} SplitWhole(text: string, separator: char)
    requires separator !in text
    ensures Split(text, separator) == [text]
  {
    if text != "" {
      SplitWhole(text[1..], separator);
      assert [text[0]] + text[1..] == text;
    }
  }

  lemma {:induction false} SplitAppended(a: string, b: string, separator: char)
    requires separator !in b
    ensures Split(a + [separator] + b, separator) == Split(a, separator) + [b]
  {
    SplitWhole(b, separator);
    var text := a + [separator] + b;
    if a == "" {
      assert text[1..] == b;
    } else {
      assert text[1..] == a[1..] + [separator] + b;
      SplitAppended(a[1..], b, separator);
    }
  }

  /** Splitting undoes joining, where no part contains the separator. */
  lemma {:induction false} SplitUndoesJoin(parts: seq<string>, separator: char)
    requires parts != [] && forall p :: p in parts ==> separator !in p
    ensures Split(Join(parts, separator), separator) == parts
  {
    var n := |parts| - 1;
    if n == 0 {
      SplitWhole(parts[0], separator);
    } else {
      assert parts == parts[..n] + [parts[n]];
      SplitUndoesJoin(parts[..n], separator);
      SplitAppended(Join(parts[..n], separator), parts[n], separator);
    }
  }

  lemma {:induction false} JoinPrepended(head: string, parts: seq<string>, separator: char)
    requires parts != []
    ensures Join([head] + parts, separator) == head + [separator] + Join(parts, separator)
    ensures Join([head + parts[0]] + parts[1..], separator) == head + Join(parts, separator)
  {
    var n := |parts| - 1;
    if n > 0 {
      JoinPrepended(head, parts[..n], separator);
      assert ([head] + parts)[..n + 1] == [head] + parts[..n];
      assert ([head + parts[0]] + parts[1..])[..n] == [head + parts[..n][0]] + parts[..n][1..];
    } else {
      assert ([head] + parts)[..1] == [head];
    }
  }

  /** Joining undoes splitting, and no part keeps a separator. */
  lemma {:induction false} JoinUndoesSplit(text: string, separator: char)
    ensures Join(Split(text, separator), separator) == text
    ensures forall p :: p in Split(text, separator) ==> separator !in p
  {
    if text != "" {
      var rest := Split(text[1..], separator);
      assert Split(text, separator) ==
             if text[0] == separator then [""] + rest else [[text[0]] + rest[0]] + rest[1..];
      assert text == [text[0]] + text[1..] && rest == [rest[0]] + rest[1..];
      hide *;
      JoinUndoesSplit(text[1..], separator);
      if text[0] == separator {
        JoinPrepended("", rest, separator);
      } else {
        JoinPrepended([text[0]], rest, separator);
      }
    }
  }

  /** A JSON value as Python's `json` sees it. */
  datatype Json =
    | JNull | JBool(flag: bool) | JInt(number: int) | JReal(amount: real) | JString(text: string)
    | JList(items: seq<Json>) | JObject(fields: map<string, Json>)
  {
    /** What Python treats as false. */
    predicate IsFalsy() {
      || this == JNull || this == JBool(false) || this == JInt(0) || this == JReal(0.0) || this == JString("")
      || this == JList([]) || this == JObject(map[])
    }
  }
}
