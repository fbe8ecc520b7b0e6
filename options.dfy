/**
 * json_options: the settings object shared by the JSON reader and the JSON writer, with its
 * documented defaults, its chained setters, the substitution of NaN and the infinities by
 * numbers or strings, and the private quote tracker is_string.
 */
module Options {

  /** The largest size_t on a 64-bit target. */
  const SizeMax: int := 0xFFFF_FFFF_FFFF_FFFF

  type SizeT = x: int | 0 <= x <= SizeMax

  type Int32 = x: int | -0x8000_0000 <= x < 0x8000_0000

  /** std::chars_format as its underlying bits; the value-initialized chars_format() is 0. */
  type CharsFormat = x: int | 0 <= x < 256

  datatype LineSplitKind = SameLine | NewLine | MultiLine

  datatype BigIntegerCharsFormat = Number | Base10 | Base64 | Base64Url

  datatype ByteStringCharsFormat = NoFormat | Base16 | Base64 | Base64Url

  datatype SpacesOption = NoSpaces | SpaceAfter | SpaceBefore | SpaceBeforeAndAfter

  /** The nine flags and six texts that say how NaN, infinity and negative infinity are
      written and read, as json_options holds them. */
  datatype Substitutions = Substitutions(
    isNanToNum: bool,
    isInfToNum: bool,
    isNeginfToNum: bool,
    isNanToStr: bool,
    isInfToStr: bool,
    isNeginfToStr: bool,
    isStrToNan: bool,
    isStrToInf: bool,
    isStrToNeginf: bool,
    nanToNum: string,
    infToNum: string,
    neginfToNum: string,
    nanToStr: string,
    infToStr: string,
    neginfToStr: string)
  {
    // The getters that derive a value rather than return a field.

    /** Negative infinity is written as a number when it has a text of its own or infinity has. */
    predicate IsNeginfToNum()
      ensures isInfToNum ==> IsNeginfToNum()
      ensures !isInfToNum ==> (IsNeginfToNum() <==> isNeginfToNum)
    {
      isNeginfToNum || isInfToNum
    }

    /** Negative infinity is written as a string when it has a string of its own or infinity has. */
    predicate IsNeginfToStr()
      ensures isInfToStr ==> IsNeginfToStr()
      ensures !isInfToStr ==> (IsNeginfToStr() <==> isNeginfToStr)
    {
      isNeginfToStr || isInfToStr
    }

    /** A string is read back as negative infinity when it is asked for, directly or for infinity. */
    predicate IsStrToNeginf()
      ensures isStrToInf ==> IsStrToNeginf()
      ensures !isStrToInf ==> (IsStrToNeginf() <==> isStrToNeginf)
    {
      isStrToNeginf || isStrToInf
    }

    function NanToNum(): string { if isNanToNum then nanToNum else nanToNum }

    function InfToNum(): string { if isInfToNum then infToNum else infToNum }

    /** The stored text, or '-' and the infinity text when only infinity has a flag set. */
    function NeginfToNum(): (r: string)
      ensures isNeginfToNum ==> r == neginfToNum
      ensures r == neginfToNum || (isInfToNum && r == "-" + infToNum)
      ensures r != neginfToNum ==> |r| == |infToNum| + 1 && r[0] == '-' && r[1..] == infToNum
    {
      if isNeginfToNum then neginfToNum
      else if isInfToNum then "-" + infToNum
      else neginfToNum
    }

    function NanToStr(): string { if isNanToStr then nanToStr else nanToStr }

    function InfToStr(): string { if isInfToStr then infToStr else infToStr }

    /** The stored string, or '-' and the infinity string when only infinity has a flag set. */
    function NeginfToStr(): (r: string)
      ensures isNeginfToStr ==> r == neginfToStr
      ensures r == neginfToStr || (isInfToStr && r == "-" + infToStr)
      ensures r != neginfToStr ==> |r| == |infToStr| + 1 && r[0] == '-' && r[1..] == infToStr
    {
      if isNeginfToStr then neginfToStr
      else if isInfToStr then "-" + infToStr
      else neginfToStr
    }

    // The effect of the substitution setters.

    function WithNanToNum(value: string): Substitutions
    {
      this.(isNanToNum := true, nanToStr := "", nanToNum := value)
    }

    function WithInfToNum(value: string): Substitutions
    {
      this.(isInfToNum := true, infToStr := "", infToNum := value)
    }

    function WithNeginfToNum(value: string): Substitutions
    {
      this.(isNeginfToNum := true, neginfToStr := "", neginfToNum := value)
    }

    function WithNanToStr(value: string, strToNan: bool): Substitutions
    {
      this.(isNanToStr := true, isStrToNan := strToNan, nanToNum := "", nanToStr := value)
    }

    /** inf_to_str as written: its parameter shadows the member function, so the flag it sets to
        true is assigned the parameter next, and is_str_to_inf_ is left alone. */
    function WithInfToStr(value: string, isInfToStrArg: bool): Substitutions
    {
      this.(isInfToStr := true).(isInfToStr := isInfToStrArg, infToNum := "", infToStr := value)
    }

    /** neginf_to_str as written, with the same overwrite as inf_to_str. */
    function WithNeginfToStr(value: string, isNeginfToStrArg: bool): Substitutions
    {
      this.(isNeginfToStr := true).(isNeginfToStr := isNeginfToStrArg, neginfToNum := "", neginfToStr := value)
    }

    /** inf_to_str as nan_to_str shows it is meant: the output flag is set and the parameter
        controls reading the string back as infinity. */
    function WithInfToStrIntended(value: string, strToInf: bool): Substitutions
    {
      this.(isInfToStr := true, isStrToInf := strToInf, infToNum := "", infToStr := value)
    }

    /** neginf_to_str as nan_to_str shows it is meant. */
    function WithNeginfToStrIntended(value: string, strToNeginf: bool): Substitutions
    {
      this.(isNeginfToStr := true, isStrToNeginf := strToNeginf, neginfToNum := "", neginfToStr := value)
    }
  }

  /** The substitutions of a default-constructed json_options: none. */
  const NoSubstitutions: Substitutions :=
    Substitutions(false, false, false, false, false, false, false, false, false, "", "", "", "", "", "")

  /** json_options: every setter but max_nesting_depth returns the object itself for chaining. */
  class JsonOptions {
    var indentSize: SizeT
    var floatingPointFormat: CharsFormat
    var precision: Int32
    var escapeAllNonAscii: bool
    var escapeSolidus: bool
    var byteStringFormat: ByteStringCharsFormat
    var bigIntegerFormat: BigIntegerCharsFormat
    var objectObjectLineSplits: LineSplitKind
    var objectArrayLineSplits: LineSplitKind
    var arrayArrayLineSplits: LineSplitKind
    var arrayObjectLineSplits: LineSplitKind
    var lineLengthLimit: SizeT
    var maxNestingDepth: SizeT
    var spacesAroundColon: SpacesOption
    var spacesAroundComma: SpacesOption
    var padInsideObjectBraces: bool
    var padInsideArrayBrackets: bool
    var newLineChars: string
    var isNanToNum: bool
    var isInfToNum: bool
    var isNeginfToNum: bool
    var isNanToStr: bool
    var isInfToStr: bool
    var isNeginfToStr: bool
    var isStrToNan: bool
    var isStrToInf: bool
    var isStrToNeginf: bool
    var nanToNum: string
    var infToNum: string
    var neginfToNum: string
    var nanToStr: string
    var infToStr: string
    var neginfToStr: string
    var losslessNumber: bool

    /** The current values of the substitution fields. */
    function Subst(): Substitutions
      reads this
    {
      Substitutions(
        isNanToNum, isInfToNum, isNeginfToNum, isNanToStr, isInfToStr, isNeginfToStr,
        isStrToNan, isStrToInf, isStrToNeginf,
        nanToNum, infToNum, neginfToNum, nanToStr, infToStr, neginfToStr)
    }

    constructor ()
      ensures indentSize == 4 && floatingPointFormat == 0 && precision == 0
      ensures !escapeAllNonAscii && !escapeSolidus
      ensures byteStringFormat == NoFormat && bigIntegerFormat == BigIntegerCharsFormat.Base10
      ensures objectObjectLineSplits == MultiLine && objectArrayLineSplits == SameLine
      ensures arrayArrayLineSplits == NewLine && arrayObjectLineSplits == MultiLine
      ensures lineLengthLimit == 120 && maxNestingDepth == SizeMax
      ensures spacesAroundColon == SpaceAfter && spacesAroundComma == SpaceAfter
      ensures !padInsideObjectBraces && !padInsideArrayBrackets
      ensures newLineChars == "\n" && !losslessNumber
      ensures Subst() == NoSubstitutions
    {
      indentSize, floatingPointFormat, precision := 4, 0, 0;
      escapeAllNonAscii, escapeSolidus := false, false;
      byteStringFormat, bigIntegerFormat := NoFormat, BigIntegerCharsFormat.Base10;
      objectObjectLineSplits, objectArrayLineSplits := MultiLine, SameLine;
      arrayArrayLineSplits, arrayObjectLineSplits := NewLine, MultiLine;
      lineLengthLimit, maxNestingDepth := 120, SizeMax;
      spacesAroundColon, spacesAroundComma := SpaceAfter, SpaceAfter;
      padInsideObjectBraces, padInsideArrayBrackets := false, false;
      isNanToNum, isInfToNum, isNeginfToNum := false, false, false;
      isNanToStr, isInfToStr, isNeginfToStr := false, false, false;
      isStrToNan, isStrToInf, isStrToNeginf := false, false, false;
      nanToNum, infToNum, neginfToNum := "", "", "";
      nanToStr, infToStr, neginfToStr := "", "", "";
      losslessNumber := false;
      newLineChars := "";
      newLineChars := newLineChars + ['\n'];
    }

    method ByteStringFormat(value: ByteStringCharsFormat) returns (r: JsonOptions)
      modifies this`byteStringFormat
      ensures r == this && byteStringFormat == value
    {
      byteStringFormat := value;
      r := this;
    }

    method BigIntegerFormat(value: BigIntegerCharsFormat) returns (r: JsonOptions)
      modifies this`bigIntegerFormat
      ensures r == this && bigIntegerFormat == value
    {
      bigIntegerFormat := value;
      r := this;
    }

    method ObjectObjectLineSplits(value: LineSplitKind) returns (r: JsonOptions)
      modifies this`objectObjectLineSplits
      ensures r == this && objectObjectLineSplits == value
    {
      objectObjectLineSplits := value;
      r := this;
    }

    method ArrayObjectLineSplits(value: LineSplitKind) returns (r: JsonOptions)
      modifies this`arrayObjectLineSplits
      ensures r == this && arrayObjectLineSplits == value
    {
      arrayObjectLineSplits := value;
      r := this;
    }

    method ObjectArrayLineSplits(value: LineSplitKind) returns (r: JsonOptions)
      modifies this`objectArrayLineSplits
      ensures r == this && objectArrayLineSplits == value
    {
      objectArrayLineSplits := value;
      r := this;
    }

    method ArrayArrayLineSplits(value: LineSplitKind) returns (r: JsonOptions)
      modifies this`arrayArrayLineSplits
      ensures r == this && arrayArrayLineSplits == value
    {
      arrayArrayLineSplits := value;
      r := this;
    }

    method IndentSize(value: SizeT) returns (r: JsonOptions)
      modifies this`indentSize
      ensures r == this && indentSize == value
    {
      indentSize := value;
      r := this;
    }

    method SpacesAroundColon(value: SpacesOption) returns (r: JsonOptions)
      modifies this`spacesAroundColon
      ensures r == this && spacesAroundColon == value
    {
      spacesAroundColon := value;
      r := this;
    }

    method SpacesAroundComma(value: SpacesOption) returns (r: JsonOptions)
      modifies this`spacesAroundComma
      ensures r == this && spacesAroundComma == value
    {
      spacesAroundComma := value;
      r := this;
    }

    method PadInsideObjectBraces(value: bool) returns (r: JsonOptions)
      modifies this`padInsideObjectBraces
      ensures r == this && padInsideObjectBraces == value
    {
      padInsideObjectBraces := value;
      r := this;
    }

    method PadInsideArrayBrackets(value: bool) returns (r: JsonOptions)
      modifies this`padInsideArrayBrackets
      ensures r == this && padInsideArrayBrackets == value
    {
      padInsideArrayBrackets := value;
      r := this;
    }

    method NewLineChars(value: string) returns (r: JsonOptions)
      modifies this`newLineChars
      ensures r == this && newLineChars == value
    {
      newLineChars := value;
      r := this;
    }

    /** nan_to_num: write NaN as the given number text, dropping a NaN string replacement. */
    method NanToNum(value: string) returns (r: JsonOptions)
      modifies this`isNanToNum, this`nanToStr, this`nanToNum
      ensures r == this && Subst() == old(Subst()).WithNanToNum(value)
    {
      isNanToNum := true;
      nanToStr := "";
      nanToNum := value;
      r := this;
    }

    /** inf_to_num: write infinity as the given number text, dropping an infinity string replacement. */
    method InfToNum(value: string) returns (r: JsonOptions)
      modifies this`isInfToNum, this`infToStr, this`infToNum
      ensures r == this && Subst() == old(Subst()).WithInfToNum(value)
    {
      isInfToNum := true;
      infToStr := "";
      infToNum := value;
      r := this;
    }

    /** neginf_to_num: write negative infinity as the given number text. */
    method NeginfToNum(value: string) returns (r: JsonOptions)
      modifies this`isNeginfToNum, this`neginfToStr, this`neginfToNum
      ensures r == this && Subst() == old(Subst()).WithNeginfToNum(value)
    {
      isNeginfToNum := true;
      neginfToStr := "";
      neginfToNum := value;
      r := this;
    }

    /** nan_to_str: write NaN as the given string, and read that string back as NaN when asked. */
    method NanToStr(value: string, strToNan: bool := true) returns (r: JsonOptions)
      modifies this`isNanToStr, this`isStrToNan, this`nanToNum, this`nanToStr
      ensures r == this && Subst() == old(Subst()).WithNanToStr(value, strToNan)
    {
      isNanToStr := true;
      isStrToNan := strToNan;
      nanToNum := "";
      nanToStr := value;
      r := this;
    }

    /** inf_to_str, corrected to match nan_to_str: write infinity as the given string, and read
        that string back as infinity when asked. WithInfToStr is the code as written. */
    method InfToStr(value: string, strToInf: bool := true) returns (r: JsonOptions)
      modifies this`isInfToStr, this`isStrToInf, this`infToNum, this`infToStr
      ensures r == this && Subst() == old(Subst()).WithInfToStrIntended(value, strToInf)
    {
      isInfToStr := true;
      isStrToInf := strToInf;
      infToNum := "";
      infToStr := value;
      r := this;
    }

    /** neginf_to_str, corrected the same way. WithNeginfToStr is the code as written. */
    method NeginfToStr(value: string, strToNeginf: bool := true) returns (r: JsonOptions)
      modifies this`isNeginfToStr, this`isStrToNeginf, this`neginfToNum, this`neginfToStr
      ensures r == this && Subst() == old(Subst()).WithNeginfToStrIntended(value, strToNeginf)
    {
      isNeginfToStr := true;
      isStrToNeginf := strToNeginf;
      neginfToNum := "";
      neginfToStr := value;
      r := this;
    }

    method LosslessNumber(value: bool) returns (r: JsonOptions)
      modifies this`losslessNumber
      ensures r == this && losslessNumber == value
    {
      losslessNumber := value;
      r := this;
    }

    method LineLengthLimit(value: SizeT) returns (r: JsonOptions)
      modifies this`lineLengthLimit
      ensures r == this && lineLengthLimit == value
    {
      lineLengthLimit := value;
      r := this;
    }

    method FloatingPointFormat(value: CharsFormat) returns (r: JsonOptions)
      modifies this`floatingPointFormat
      ensures r == this && floatingPointFormat == value
    {
      floatingPointFormat := value;
      r := this;
    }

    method Precision(value: Int32) returns (r: JsonOptions)
      modifies this`precision
      ensures r == this && precision == value
    {
      precision := value;
      r := this;
    }

    method EscapeAllNonAscii(value: bool) returns (r: JsonOptions)
      modifies this`escapeAllNonAscii
      ensures r == this && escapeAllNonAscii == value
    {
      escapeAllNonAscii := value;
      r := this;
    }

    method EscapeSolidus(value: bool) returns (r: JsonOptions)
      modifies this`escapeSolidus
      ensures r == this && escapeSolidus == value
    {
      escapeSolidus := value;
      r := this;
    }

    /** max_nesting_depth's setter returns nothing. */
    method MaxNestingDepth(value: SizeT)
      modifies this`maxNestingDepth
      ensures maxNestingDepth == value
    {
      maxNestingDepth := value;
    }

    /** is_string, a member of the object that reads none of its fields. */
    method IsString(s: string) returns (r: bool)
      ensures r <==> QuoteState(s) == EndQuote
    {
      var state := Initial;
      for k := 0 to |s|
        invariant state == QuoteState(s[..k])
      {
        assert s[..k + 1] == s[..k] + [s[k]];
        var c := s[k];
        if c == '\t' || c == ' ' || c == '\n' || c == '\r' {
        } else if c == '\\' {
          state := Escape;
        } else if c == '"' {
          match state {
            case Initial => state := BeginQuote;
            case BeginQuote => state := EndQuote;
            case Character => state := EndQuote;
            case EndQuote => state := Error;
            case Escape => state := Character;
            case _ => state := Character;
          }
        }
      }
      assert s[..|s|] == s;
      r := state == EndQuote;
    }
  }

  // ---------------------------------------------------------------------------
  // Defaults and the substitution setters
  // ---------------------------------------------------------------------------

  /** A default json_options substitutes nothing for NaN or the infinities, in either direction. */
  lemma {:induction false} DefaultsSubstituteNothing()
    ensures !NoSubstitutions.isNanToNum && !NoSubstitutions.isInfToNum && !NoSubstitutions.IsNeginfToNum()
    ensures !NoSubstitutions.isNanToStr && !NoSubstitutions.isInfToStr && !NoSubstitutions.IsNeginfToStr()
    ensures !NoSubstitutions.isStrToNan && !NoSubstitutions.isStrToInf && !NoSubstitutions.IsStrToNeginf()
    ensures NoSubstitutions.NanToNum() == NoSubstitutions.InfToNum() == NoSubstitutions.NeginfToNum() == ""
    ensures NoSubstitutions.NanToStr() == NoSubstitutions.InfToStr() == NoSubstitutions.NeginfToStr() == ""
  {
  }

  /** The getters of the NaN and infinity replacements return the stored text whatever the flag. */
  lemma {:induction false} GettersIgnoreFlags(s: Substitutions)
    ensures s.NanToNum() == s.nanToNum && s.InfToNum() == s.infToNum
    ensures s.NanToStr() == s.nanToStr && s.InfToStr() == s.infToStr
    ensures s.isNeginfToNum || !s.isInfToNum ==> s.NeginfToNum() == s.neginfToNum
    ensures s.isNeginfToStr || !s.isInfToStr ==> s.NeginfToStr() == s.neginfToStr
  {
  }

  /** Without its own setting, negative infinity follows infinity with a '-' in front. */
  lemma {:induction false} NeginfFollowsInf(s: Substitutions)
    ensures !s.isNeginfToNum ==> (s.IsNeginfToNum() <==> s.isInfToNum)
    ensures !s.isNeginfToNum && s.isInfToNum ==> s.NeginfToNum() == "-" + s.InfToNum()
    ensures !s.isNeginfToStr ==> (s.IsNeginfToStr() <==> s.isInfToStr)
    ensures !s.isNeginfToStr && s.isInfToStr ==> s.NeginfToStr() == "-" + s.InfToStr()
    ensures !s.isStrToNeginf ==> (s.IsStrToNeginf() <==> s.isStrToInf)
    ensures s.isNeginfToNum ==> s.IsNeginfToNum() && s.NeginfToNum() == s.neginfToNum
    ensures s.isNeginfToStr ==> s.IsNeginfToStr() && s.NeginfToStr() == s.neginfToStr
  {
  }

  /** nan_to_num turns NaN into the number text and clears the NaN string, leaving the flags of
      the string replacement as they were. */
  lemma {:induction false} NanToNumReplaces(s: Substitutions, value: string)
    ensures var t := s.WithNanToNum(value);
      && t.isNanToNum && t.NanToNum() == value && t.NanToStr() == ""
      && t.isNanToStr == s.isNanToStr && t.isStrToNan == s.isStrToNan
      && t.(isNanToNum := s.isNanToNum, nanToNum := s.nanToNum, nanToStr := s.nanToStr) == s
  {
  }

  /** inf_to_num turns infinity into the number text, clears the infinity string, and negative
      infinity becomes '-' and that text unless it has a number text of its own. */
  lemma {:induction false} InfToNumReplaces(s: Substitutions, value: string)
    ensures var t := s.WithInfToNum(value);
      && t.isInfToNum && t.InfToNum() == value && t.InfToStr() == ""
      && t.IsNeginfToNum()
      && t.NeginfToNum() == (if s.isNeginfToNum then s.neginfToNum else "-" + value)
      && t.isInfToStr == s.isInfToStr && t.isStrToInf == s.isStrToInf
      && t.(isInfToNum := s.isInfToNum, infToNum := s.infToNum, infToStr := s.infToStr) == s
  {
  }

  /** neginf_to_num sets negative infinity's number text and clears its own string, after which a
      negative-infinity string can only come from the infinity string. */
  lemma {:induction false} NeginfToNumReplaces(s: Substitutions, value: string)
    ensures var t := s.WithNeginfToNum(value);
      && t.IsNeginfToNum() && t.NeginfToNum() == value
      && t.NeginfToStr() == (if !s.isNeginfToStr && s.isInfToStr then "-" + s.infToStr else "")
      && t.(isNeginfToNum := s.isNeginfToNum, neginfToNum := s.neginfToNum, neginfToStr := s.neginfToStr) == s
  {
  }

  /** nan_to_str turns NaN into the string, reads it back as NaN exactly when asked, and clears the
      NaN number text. */
  lemma {:induction false} NanToStrReplaces(s: Substitutions, value: string, strToNan: bool)
    ensures var t := s.WithNanToStr(value, strToNan);
      && t.isNanToStr && t.isStrToNan == strToNan && t.NanToStr() == value && t.NanToNum() == ""
      && t.isNanToNum == s.isNanToNum
      && t.(isNanToStr := s.isNanToStr, isStrToNan := s.isStrToNan, nanToNum := s.nanToNum, nanToStr := s.nanToStr) == s
  {
  }

  // ---------------------------------------------------------------------------
  // inf_to_str and neginf_to_str: as written and as intended
  // ---------------------------------------------------------------------------

  /** inf_to_str as written: its output flag ends up equal to the parameter, and reading the string
      back as infinity is not switched on. */
  lemma {:induction false} InfToStrAsWritten(s: Substitutions, value: string, arg: bool)
    ensures var t := s.WithInfToStr(value, arg);
      && t.isInfToStr == arg && t.isStrToInf == s.isStrToInf
      && t.InfToStr() == value && t.InfToNum() == ""
      && t.(isInfToStr := s.isInfToStr, infToNum := s.infToNum, infToStr := s.infToStr) == s
  {
  }

  /** neginf_to_str as written, with the same overwrite. */
  lemma {:induction false} NeginfToStrAsWritten(s: Substitutions, value: string, arg: bool)
    ensures var t := s.WithNeginfToStr(value, arg);
      && t.isNeginfToStr == arg && t.isStrToNeginf == s.isStrToNeginf
      && t.neginfToStr == value && t.neginfToNum == ""
      && t.(isNeginfToStr := s.isNeginfToStr, neginfToNum := s.neginfToNum, neginfToStr := s.neginfToStr) == s
  {
  }

  /** On default options nan_to_str("NaN") makes NaN round-trip through its string, while
      inf_to_str("Infinity") does not make infinity read back, and inf_to_str("Infinity", false)
      does not even write it. */
  lemma {:induction false} InfToStrDiffersFromNanToStr()
    ensures NoSubstitutions.WithNanToStr("NaN", true).isNanToStr && NoSubstitutions.WithNanToStr("NaN", true).isStrToNan
    ensures !NoSubstitutions.WithInfToStr("Infinity", true).isStrToInf
    ensures !NoSubstitutions.WithInfToStr("Infinity", false).isInfToStr
    ensures !NoSubstitutions.WithNeginfToStr("-Infinity", true).isStrToNeginf
    ensures !NoSubstitutions.WithNeginfToStr("-Infinity", false).isNeginfToStr
  {
  }

  /** inf_to_str as intended behaves like nan_to_str: the string is written for infinity and for
      negative infinity without its own string, and read back exactly when asked. */
  lemma {:induction false} InfToStrIntendedReplaces(s: Substitutions, value: string, strToInf: bool)
    ensures var t := s.WithInfToStrIntended(value, strToInf);
      && t.isInfToStr && t.isStrToInf == strToInf && t.InfToStr() == value && t.InfToNum() == ""
      && t.IsNeginfToStr() && (strToInf ==> t.IsStrToNeginf())
      && t.NeginfToStr() == (if s.isNeginfToStr then s.neginfToStr else "-" + value)
      && t.(isInfToStr := s.isInfToStr, isStrToInf := s.isStrToInf, infToNum := s.infToNum, infToStr := s.infToStr) == s
  {
  }

  /** neginf_to_str as intended behaves like nan_to_str. */
  lemma {:induction false} NeginfToStrIntendedReplaces(s: Substitutions, value: string, strToNeginf: bool)
    ensures var t := s.WithNeginfToStrIntended(value, strToNeginf);
      && t.IsNeginfToStr() && t.isStrToNeginf == strToNeginf && t.NeginfToStr() == value
      && t.neginfToNum == "" && (strToNeginf ==> t.IsStrToNeginf())
      && t.(isNeginfToStr := s.isNeginfToStr, isStrToNeginf := s.isStrToNeginf, neginfToNum := s.neginfToNum, neginfToStr := s.neginfToStr) == s
  {
  }

  // ---------------------------------------------------------------------------
  // is_string
  // ---------------------------------------------------------------------------

  datatype InputState = Initial | BeginQuote | Character | EndQuote | Escape | Error

  /** One character of is_string: blanks and ordinary characters keep the state, a backslash
      always moves to escape, and a double quote advances the quote count. */
  function QuoteStep(state: InputState, c: char): (r: InputState)
    ensures c == '\\' ==> r == Escape
    ensures c != '\\' && c != '"' ==> r == state
    ensures c == '"' ==> (r == EndQuote <==> state == BeginQuote || state == Character)
    ensures c == '"' ==> (r == Error <==> state == EndQuote)
    ensures c == '"' ==> (r == BeginQuote <==> state == Initial)
    ensures c == '"' ==> r != Initial && r != Escape
  {
    if c == '\\' then Escape
    else if c != '"' then state
    else match state
      case Initial => BeginQuote
      case BeginQuote => EndQuote
      case Character => EndQuote
      case EndQuote => Error
      case Escape => Character
      case Error => Character
  }

  /** The state after reading `s` from `start`, a left fold of QuoteStep. */
  function QuoteStateFrom(start: InputState, s: string): InputState
    decreases |s|
  {
    if s == [] then start else QuoteStep(QuoteStateFrom(start, s[..|s| - 1]), s[|s| - 1])
  }

  function QuoteState(s: string): InputState
  {
    QuoteStateFrom(Initial, s)
  }

  /** Reading `s` and then `t` is reading `t` from the state `s` leaves. */
  lemma {:induction false} QuoteStateAppend(start: InputState, s: string, t: string)
    ensures QuoteStateFrom(start, s + t) == QuoteStateFrom(QuoteStateFrom(start, s), t)
    decreases |t|
  {
    if t != [] {
      var u, c := t[..|t| - 1], t[|t| - 1];
      assert (s + t)[..|s + t| - 1] == s + u;
      assert (s + t)[|s + t| - 1] == c;
      QuoteStateAppend(start, s, u);
    } else {
      assert s + t == s;
    }
  }

  /** Characters other than '"' and '\\' leave the state as it is. */
  lemma {:induction false} PlainKeepsState(start: InputState, s: string)
    requires forall k :: 0 <= k < |s| ==> s[k] != '"' && s[k] != '\\'
    ensures QuoteStateFrom(start, s) == start
    decreases |s|
  {
    if s != [] {
      PlainKeepsState(start, s[..|s| - 1]);
    }
  }

  /** A backslash moves to escape whatever came before it. */
  lemma {:induction false} BackslashEscapes(s: string)
    ensures QuoteState(s + ['\\']) == Escape
  {
    assert (s + ['\\'])[..|s|] == s;
  }

  /** The empty text is not a string, and "" is. */
  lemma {:induction false} IsStringSmallCases()
    ensures QuoteState("") != EndQuote
    ensures QuoteState("\"\"") == EndQuote
  {
    assert "\"\""[..1] == "\"";
    assert "\""[..0] == "";
  }

  /** Text between two double quotes, with blanks around them, is a string when the text holds
      neither a double quote nor a backslash. */
  lemma {:induction false} QuotedIsString(before: string, body: string, after: string)
    requires forall k :: 0 <= k < |before| ==> before[k] in " \t\n\r"
    requires forall k :: 0 <= k < |after| ==> after[k] in " \t\n\r"
    requires forall k :: 0 <= k < |body| ==> body[k] != '"' && body[k] != '\\'
    ensures QuoteState(before + ['"'] + body + ['"'] + after) == EndQuote
  {
    PlainKeepsState(Initial, before);
    QuoteStateAppend(Initial, before, ['"']);
    assert QuoteStateFrom(Initial, before + ['"']) == BeginQuote by {
      assert (before + ['"'])[..|before|] == before;
    }
    PlainKeepsState(BeginQuote, body);
    QuoteStateAppend(Initial, before + ['"'], body);
    var front := before + ['"'] + body;
    assert QuoteStateFrom(Initial, front + ['"']) == EndQuote by {
      assert (front + ['"'])[..|front|] == front;
    }
    PlainKeepsState(EndQuote, after);
    QuoteStateAppend(Initial, front + ['"'], after);
  }

  /** A third unescaped double quote makes the text no string. */
  lemma {:induction false} ThirdQuoteIsError(s: string)
    requires QuoteState(s) == EndQuote
    ensures QuoteState(s + ['"']) == Error
  {
    assert (s + ['"'])[..|s|] == s;
  }
}
