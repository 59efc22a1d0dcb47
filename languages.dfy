/**
 * The languages a card can be tagged with (`SupportedLanguage`) and the pure
 * parts of `LanguageDetector`: normalising a recognised language code and
 * looking up display names.
 *
 * The recogniser itself (`NLLanguageRecognizer`) is not modelled; its
 * dominant language, if any, is an argument.
 */
module Languages {
  import opened Wrappers

  /** A language's code, English name and name in the language itself. */
  datatype LanguageInfo = LanguageInfo(code: string, name: string, nativeName: string)

  datatype SupportedLanguage =
    | Korean | Japanese | Chinese | Spanish | French | German | Italian
    | Portuguese | Russian | Arabic | Hindi | Thai | Vietnamese
  {
    /** The language code the case stands for. */
    function RawValue(): (r: string)
      ensures |r| == 2
    {
      match this
      case Korean => "ko"
      case Japanese => "ja"
      case Chinese => "zh"
      case Spanish => "es"
      case French => "fr"
      case German => "de"
      case Italian => "it"
      case Portuguese => "pt"
      case Russian => "ru"
      case Arabic => "ar"
      case Hindi => "hi"
      case Thai => "th"
      case Vietnamese => "vi"
    }

    /** `info`: the display data of the case; its code is the raw value. */
    function Info(): (r: LanguageInfo)
      ensures r.code == RawValue()
    {
      match this
      case Korean => LanguageInfo("ko", "Korean", "한국어")
      case Japanese => LanguageInfo("ja", "Japanese", "日本語")
      case Chinese => LanguageInfo("zh", "Chinese", "中文")
      case Spanish => LanguageInfo("es", "Spanish", "Español")
      case French => LanguageInfo("fr", "French", "Français")
      case German => LanguageInfo("de", "German", "Deutsch")
      case Italian => LanguageInfo("it", "Italian", "Italiano")
      case Portuguese => LanguageInfo("pt", "Portuguese", "Português")
      case Russian => LanguageInfo("ru", "Russian", "Русский")
      case Arabic => LanguageInfo("ar", "Arabic", "العربية")
      case Hindi => LanguageInfo("hi", "Hindi", "हिन्दी")
      case Thai => LanguageInfo("th", "Thai", "ไทย")
      case Vietnamese => LanguageInfo("vi", "Vietnamese", "Tiếng Việt")
    }
  }

  lemma EveryCaseListed(r: seq<SupportedLanguage>)
    requires r == [Korean, Japanese, Chinese, Spanish, French, German, Italian,
                   Portuguese, Russian, Arabic, Hindi, Thai, Vietnamese]
    ensures forall l: SupportedLanguage :: l in r
  {
    forall l: SupportedLanguage ensures l in r {
      match l
      case Korean => assert r[0] == l;
      case Japanese => assert r[1] == l;
      case Chinese => assert r[2] == l;
      case Spanish => assert r[3] == l;
      case French => assert r[4] == l;
      case German => assert r[5] == l;
      case Italian => assert r[6] == l;
      case Portuguese => assert r[7] == l;
      case Russian => assert r[8] == l;
      case Arabic => assert r[9] == l;
      case Hindi => assert r[10] == l;
      case Thai => assert r[11] == l;
      case Vietnamese => assert r[12] == l;
    }
  }

  /** `allCases`, in declaration order: every case, each once. */
  function AllCases(): (r: seq<SupportedLanguage>)
    ensures |r| == 13
    ensures forall l: SupportedLanguage :: l in r
    ensures forall i, j :: 0 <= i < j < |r| ==> r[i] != r[j]
  {
    var r := [Korean, Japanese, Chinese, Spanish, French, German, Italian,
              Portuguese, Russian, Arabic, Hindi, Thai, Vietnamese];
    EveryCaseListed(r);
    r
  }

  /** No two cases share a code. */
  lemma RawValueInjective(a: SupportedLanguage, b: SupportedLanguage)
    requires a.RawValue() == b.RawValue()
    ensures a == b
  {
  }

  /** `first { $0.rawValue == code }` over `cases`. */
  function FirstWithCode(cases: seq<SupportedLanguage>, code: string): (r: Option<SupportedLanguage>)
    ensures r.Some? ==> r.value in cases && r.value.RawValue() == code
    ensures r.None? <==> forall i :: 0 <= i < |cases| ==> cases[i].RawValue() != code
  {
    if cases == [] then None
    else if cases[0].RawValue() == code then Some(cases[0])
    else FirstWithCode(cases[1..], code)
  }

  /** `from(code:)`: the case whose code is `code`, or none if there is none. */
  function From(code: string): (r: Option<SupportedLanguage>)
    ensures r.Some? ==> r.value.RawValue() == code
    ensures r.None? <==> forall l: SupportedLanguage :: l.RawValue() != code
  {
    var r := FirstWithCode(AllCases(), code);
    assert r.None? ==> forall l: SupportedLanguage :: l.RawValue() != code by {
      if r.None? {
        forall l: SupportedLanguage ensures l.RawValue() != code {
          assert l in AllCases();
        }
      }
    }
    r
  }

  /** Looking up a case's own code gives that case back. */
  lemma FromRawValue(l: SupportedLanguage)
    ensures From(l.RawValue()) == Some(l)
  {
    RawValueInjective(From(l.RawValue()).value, l);
  }

  predicate IsSupported(code: string) {
    From(code).Some?
  }

  /** The supported codes are exactly the thirteen raw values. */
  lemma SupportedCodes(code: string)
    ensures IsSupported(code) <==>
      code in {"ko", "ja", "zh", "es", "fr", "de", "it", "pt", "ru", "ar", "hi", "th", "vi"}
  {
    if IsSupported(code) {
      var l := From(code).value;
      assert l.RawValue() == code;
    } else {
      assert forall l: SupportedLanguage :: l.RawValue() != code;
      assert Korean.RawValue() != code && Japanese.RawValue() != code && Chinese.RawValue() != code;
      assert Spanish.RawValue() != code && French.RawValue() != code && German.RawValue() != code;
      assert Italian.RawValue() != code && Portuguese.RawValue() != code && Russian.RawValue() != code;
      assert Arabic.RawValue() != code && Hindi.RawValue() != code && Thai.RawValue() != code;
      assert Vietnamese.RawValue() != code;
    }
  }

  /** The code the app stores for a recognised language: every Chinese variant
      ("zh-Hans", "zh-Hant", ...) becomes "zh", a supported code is kept, and
      anything else falls back to Korean. */
  function Normalize(code: string): (r: string)
    ensures IsSupported(r)
    ensures "zh" <= code ==> r == "zh"
    ensures !("zh" <= code) && IsSupported(code) ==> r == code
    ensures !("zh" <= code) && !IsSupported(code) ==> r == "ko"
  {
    FromRawValue(Chinese);
    FromRawValue(Korean);
    if "zh" <= code then "zh"
    else if From(code).Some? then code
    else "ko"
  }

  /** A supported code is stored as it is, and normalising twice changes
      nothing more than normalising once. */
  lemma NormalizeFixesSupported(code: string)
    ensures IsSupported(code) ==> Normalize(code) == code
    ensures Normalize(Normalize(code)) == Normalize(code)
  {
    if IsSupported(code) && "zh" <= code {
      SupportedCodes(code);
    }
    var n := Normalize(code);
    if "zh" <= n {
      SupportedCodes(n);
    }
  }

  /** `detectLanguage`: nothing for empty text or when no language is
      recognised; otherwise the normalised code, which is always supported. */
  function DetectLanguage(text: string, dominantLanguage: Option<string>): (r: Option<string>)
    ensures text == [] || dominantLanguage.None? ==> r.None?
    ensures text != [] && dominantLanguage.Some? ==> r.Some?
    ensures r.Some? ==> IsSupported(r.value) && r.value == Normalize(dominantLanguage.value)
  {
    if text == [] then None
    else match dominantLanguage
      case None => None
      case Some(code) => Some(Normalize(code))
  }

  /** `uppercased()` on one character, for the ASCII letters. */
  function UpperChar(c: char): (u: char)
    ensures 'a' <= c <= 'z' ==> 'A' <= u <= 'Z' && u as int - c as int == 'A' as int - 'a' as int
    ensures !('a' <= c <= 'z') ==> u == c
  {
    if 'a' <= c <= 'z' then (c as int - 'a' as int + 'A' as int) as char else c
  }

  /** `uppercased()`, for ASCII text. */
  function Uppercased(s: string): (r: string)
    ensures |r| == |s|
    ensures forall i :: 0 <= i < |s| ==> r[i] == UpperChar(s[i])
  {
    if s == [] then [] else [UpperChar(s[0])] + Uppercased(s[1..])
  }

  /** Upper-cased text has no lower-case ASCII letter left, so upper-casing
      again changes nothing. */
  lemma UppercasedIdempotent(s: string)
    ensures forall i :: 0 <= i < |s| ==> !('a' <= Uppercased(s)[i] <= 'z')
    ensures Uppercased(Uppercased(s)) == Uppercased(s)
  {
  }

  /** `getLanguageName`: the English name of a supported language, else the
      code upper-cased. */
  function GetLanguageName(code: string): (r: string)
    ensures IsSupported(code) ==> r == From(code).value.Info().name
    ensures !IsSupported(code) ==> r == Uppercased(code)
  {
    match From(code)
    case Some(language) => language.Info().name
    case None => Uppercased(code)
  }

  /** `getLanguageNativeName`: the native name of a supported language, else
      the code upper-cased. */
  function GetLanguageNativeName(code: string): (r: string)
    ensures IsSupported(code) ==> r == From(code).value.Info().nativeName
    ensures !IsSupported(code) ==> r == Uppercased(code)
  {
    match From(code)
    case Some(language) => language.Info().nativeName
    case None => Uppercased(code)
  }

  /** Each language's code shows its own English and native name. */
  lemma NamesOfRawValue(l: SupportedLanguage)
    ensures GetLanguageName(l.RawValue()) == l.Info().name
    ensures GetLanguageNativeName(l.RawValue()) == l.Info().nativeName
  {
    FromRawValue(l);
  }

  /** A detected language always has a real name: the upper-cased fallback is
      never shown for it. */
  lemma DetectedHasName(text: string, dominantLanguage: Option<string>)
    requires DetectLanguage(text, dominantLanguage).Some?
    ensures var code := DetectLanguage(text, dominantLanguage).value;
      GetLanguageName(code) == From(code).value.Info().name &&
      GetLanguageNativeName(code) == From(code).value.Info().nativeName
  {
  }

  /** Recognised codes as the recogniser reports them. */
  lemma NormalizeExamples()
    ensures Normalize("zh-Hans") == "zh" && Normalize("zh-Hant") == "zh"
    ensures Normalize("ja") == "ja"
  {
    FromRawValue(Japanese);
  }
}
