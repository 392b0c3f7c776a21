/** The report formats the generator can write, how the command line names
    them, and the HTML default. */
module ReportFormat {
  import opened Util

  datatype Format = HTML | XML | CSV

  /** The constant's own name. */
  function Name(f: Format): string {
    match f
    case HTML => "HTML"
    case XML => "XML"
    case CSV => "CSV"
  }

  /** String.toUpperCase on one character, for the characters whose upper
      case is an ASCII letter: the ASCII lower-case letters, the dotless i
      and the long s. Every other character is kept. */
  function UpperChar(c: char): char {
    if 'a' <= c <= 'z' then (c as int - 32) as char
    else if c == '\U{131}' then 'I'
    else if c == '\U{17F}' then 'S'
    else c
  }

  function ToUpper(s: string): (r: string)
    ensures |r| == |s|
    ensures forall i | 0 <= i < |s| :: r[i] == UpperChar(s[i])
  {
    seq(|s|, i requires 0 <= i < |s| => UpperChar(s[i]))
  }

  /** Format.fromString: null for null, otherwise the constant whose name
      equals the upper-cased text, or null. */
  function FromString(format: Option<string>): Option<Format> {
    match format
    case None => None
    case Some(s) =>
      var u := ToUpper(s);
      if u == "HTML" then Some(HTML)
      else if u == "XML" then Some(XML)
      else if u == "CSV" then Some(CSV)
      else None
  }

  /** The format `main` selects: `f` is the value of the -f option, None when
      the option is absent. An unknown value keeps the HTML default. */
  function ChooseFormat(f: Option<string>): Format {
    match FromString(f)
    case Some(g) => g
    case None => HTML
  }

  /** `s` spells the upper-case ASCII `word` in any letter case. */
  ghost predicate SpelledAs(s: string, word: string) {
    && |s| == |word|
    && forall i | 0 <= i < |s| ::
         || s[i] == word[i]
         || ('A' <= word[i] <= 'Z' && s[i] == (word[i] as int + 32) as char)
         || (word[i] == 'I' && s[i] == '\U{131}')
         || (word[i] == 'S' && s[i] == '\U{17F}')
  }

  /** Upper-casing gives an upper-case ASCII letter exactly for that letter
      in either case, or for its non-ASCII lower-case forms. */
  lemma UpperCharIs(c: char, w: char)
    requires 'A' <= w <= 'Z'
    ensures UpperChar(c) == w <==>
              c == w || c == (w as int + 32) as char || (w == 'I' && c == '\U{131}') || (w == 'S' && c == '\U{17F}')
  {
  }

  lemma UpperIsName(s: string, f: Format)
    ensures ToUpper(s) == Name(f) <==> SpelledAs(s, Name(f))
  {
    var w := Name(f);
    forall i | 0 <= i < |w|
      ensures 'A' <= w[i] <= 'Z'
    {
    }
    if |s| == |w| {
      forall i | 0 <= i < |s|
        ensures ToUpper(s)[i] == w[i] <==>
                  || s[i] == w[i]
                  || ('A' <= w[i] <= 'Z' && s[i] == (w[i] as int + 32) as char)
                  || (w[i] == 'I' && s[i] == '\U{131}')
                  || (w[i] == 'S' && s[i] == '\U{17F}')
      {
        UpperCharIs(s[i], w[i]);
      }
      if SpelledAs(s, w) {
        assert ToUpper(s) == w;
      }
    }
  }

  /** fromString recognises a format exactly when the text spells its name
      in any letter case; null and every other text give null. */
  lemma FromStringMeaning(s: string, f: Format)
    ensures FromString(Some(s)) == Some(f) <==> SpelledAs(s, Name(f))
    ensures FromString(Some(s)) == None <==> !SpelledAs(s, "HTML") && !SpelledAs(s, "XML") && !SpelledAs(s, "CSV")
    ensures FromString(None) == None
  {
    UpperIsName(s, HTML);
    UpperIsName(s, XML);
    UpperIsName(s, CSV);
  }

  /** The selected format is the one the option spells, and HTML when the
      option is absent or spells no format. */
  lemma ChooseFormatMeaning(f: Option<string>, g: Format)
    ensures ChooseFormat(f) == g <==>
              (f.Some? && SpelledAs(f.value, Name(g)))
              || (g == HTML && (f.None? || forall h: Format :: !SpelledAs(f.value, Name(h))))
  {
    if f.Some? {
      FromStringMeaning(f.value, HTML);
      FromStringMeaning(f.value, XML);
      FromStringMeaning(f.value, CSV);
    }
  }
}
