/**
 * The education dialog: the form state with its `current`/`endYear` rule, the achievement and
 * course lists, the form filled from a stored record, and the input object built on submit.
 */
module EducationModal {
  import opened Wrappers
  import opened JsText
  import Lists
  import TextLists

  /** The dialog's form state; the years are the text of their inputs. */
  datatype EducationForm = EducationForm(
    institution: string,
    degree: string,
    field: string,
    grade: string,
    startYear: string,
    endYear: string,
    current: bool,
    description: string,
    achievements: seq<string>,
    coursework: seq<string>,
    institutionLogo: string,
    institutionWebsite: string,
    portfolioType: string,
    isVisible: Option<bool>)

  const EmptyForm := EducationForm("", "", "", "", "", "", false, "", [], [], "", "", "all", Some(true))

  /** A property of a fetched object: missing (`undefined`), `null`, or a value. */
  datatype Field<T> = Undefined | Null | Defined(value: T)

  /** A stored education record as the dialog receives it; absent values are `None`. */
  datatype EducationRecord = EducationRecord(
    institution: Option<string>,
    degree: Option<string>,
    field: Option<string>,
    grade: Option<string>,
    startYear: Option<int>,
    endYear: Option<int>,
    current: Option<bool>,
    description: Option<string>,
    achievements: Option<seq<string>>,
    coursework: Option<seq<string>>,
    institutionLogo: Option<string>,
    institutionWebsite: Option<string>,
    portfolioType: Option<string>,
    isVisible: Field<bool>)

  /** `year || ''` on a stored year: absent and 0 give the empty input, any other year its digits. */
  function YearText(y: Option<int>): (r: string)
    ensures r == "" <==> y.None? || y.value == 0
  {
    if y.Some? && y.value != 0 then IntToString(y.value) else ""
  }

  /** The form filled from a stored record. */
  function LoadedForm(e: EducationRecord): (f: EducationForm)
    ensures LoadedAs(e.institution, "", f.institution) && LoadedAs(e.degree, "", f.degree)
    ensures LoadedAs(e.field, "", f.field) && LoadedAs(e.grade, "", f.grade)
    ensures LoadedAs(e.description, "", f.description)
    ensures LoadedAs(e.institutionLogo, "", f.institutionLogo)
    ensures LoadedAs(e.institutionWebsite, "", f.institutionWebsite)
    ensures LoadedAs(e.portfolioType, "all", f.portfolioType) && f.portfolioType != ""
    ensures f.startYear == YearText(e.startYear) && f.endYear == YearText(e.endYear)
    ensures e.isVisible.Undefined? ==> f.isVisible == Some(true)
    ensures e.isVisible.Null? ==> f.isVisible.None?
    ensures e.isVisible.Defined? ==> f.isVisible == Some(e.isVisible.value)
    ensures f.achievements == e.achievements.GetOr([]) && f.coursework == e.coursework.GetOr([])
    ensures f.current <==> e.current == Some(true)
  {
    EducationForm(
      OrString(e.institution, ""), OrString(e.degree, ""), OrString(e.field, ""),
      OrString(e.grade, ""), YearText(e.startYear), YearText(e.endYear), e.current.GetOr(false),
      OrString(e.description, ""), e.achievements.GetOr([]), e.coursework.GetOr([]),
      OrString(e.institutionLogo, ""), OrString(e.institutionWebsite, ""),
      OrString(e.portfolioType, "all"),
      match e.isVisible
      case Undefined => Some(true)
      case Null => None
      case Defined(b) => Some(b))
  }

  /** The text inputs and selects wired to `handleChange`. */
  datatype TextField =
    | Institution | Degree | FieldOfStudy | Grade | StartYear | EndYear | Description
    | InstitutionLogo | InstitutionWebsite | PortfolioType

  /** The checkboxes wired to `handleChange`. */
  datatype FlagField = Current | IsVisible

  datatype FieldEdit = TextEdit(field: TextField, value: string) | FlagEdit(flag: FlagField, checked: bool)

  function SetText(f: EducationForm, field: TextField, v: string): EducationForm {
    match field
    case Institution => f.(institution := v)
    case Degree => f.(degree := v)
    case FieldOfStudy => f.(field := v)
    case Grade => f.(grade := v)
    case StartYear => f.(startYear := v)
    case EndYear => f.(endYear := v)
    case Description => f.(description := v)
    case InstitutionLogo => f.(institutionLogo := v)
    case InstitutionWebsite => f.(institutionWebsite := v)
    case PortfolioType => f.(portfolioType := v)
  }

  /** The input object sent with the mutation; `None` stands for `null`. */
  datatype EducationInput = EducationInput(
    institution: string,
    degree: string,
    field: Option<string>,
    grade: Option<string>,
    startYear: ParsedInt,
    endYear: Option<ParsedInt>,
    current: bool,
    description: Option<string>,
    achievements: seq<string>,
    coursework: seq<string>,
    institutionLogo: Option<string>,
    institutionWebsite: Option<string>,
    portfolioType: string,
    isVisible: Option<bool>)

  /** `value || null`: the empty string becomes `null`. */
  function OrNull(s: string): (r: Option<string>)
    ensures r.None? <==> s == ""
    ensures r.Some? ==> r.value == s
  {
    if s == "" then None else Some(s)
  }

  /**
   * `inputData`: the optional texts with "" as `null`, the start year parsed, and the end year
   * `null` for a current course of study or an empty input, parsed otherwise.
   */
  function ShapeInput(f: EducationForm): (r: EducationInput)
    ensures r.endYear.None? <==> f.current || f.endYear == ""
    ensures r.endYear.Some? ==> r.endYear.value == ParseInt(f.endYear)
    ensures r.startYear == ParseInt(f.startYear)
    ensures r.field.None? <==> f.field == ""
    ensures r.grade.None? <==> f.grade == ""
    ensures r.description.None? <==> f.description == ""
    ensures r.institutionLogo.None? <==> f.institutionLogo == ""
    ensures r.institutionWebsite.None? <==> f.institutionWebsite == ""
    ensures r.institution == f.institution && r.degree == f.degree && r.current == f.current
    ensures r.achievements == f.achievements && r.coursework == f.coursework
    ensures r.portfolioType == f.portfolioType && r.isVisible == f.isVisible
  {
    EducationInput(
      f.institution, f.degree, OrNull(f.field), OrNull(f.grade), ParseInt(f.startYear),
      if f.current then None else if f.endYear != "" then Some(ParseInt(f.endYear)) else None,
      f.current, OrNull(f.description), f.achievements, f.coursework,
      OrNull(f.institutionLogo), OrNull(f.institutionWebsite), f.portfolioType, f.isVisible)
  }

  const RequiredMessage := "Please fill in all required fields"

  datatype SubmitOutcome = Alert(message: string) | Send(input: EducationInput)

  /** `handleSubmit`: without an institution, a degree or a start year nothing is sent. */
  function HandleSubmit(f: EducationForm): (r: SubmitOutcome)
    ensures r.Alert? <==> f.institution == "" || f.degree == "" || f.startYear == ""
    ensures r.Alert? ==> r.message == RequiredMessage
    ensures r.Send? ==> r.input == ShapeInput(f) && r.input.institution != "" && r.input.degree != ""
  {
    if f.institution == "" || f.degree == "" || f.startYear == "" then Alert(RequiredMessage)
    else Send(ShapeInput(f))
  }

  /**
   * A stored record opened and submitted unchanged sends its own years back: the start year, and
   * the end year unless the record is current.
   */
  lemma LoadedYearsRoundTrip(e: EducationRecord)
    requires e.startYear.Some? && e.startYear.value != 0
    requires e.institution.Some? && e.institution.value != "" && e.degree.Some? && e.degree.value != ""
    ensures HandleSubmit(LoadedForm(e)).Send?
    ensures HandleSubmit(LoadedForm(e)).input.startYear == Num(e.startYear.value)
    ensures e.endYear.Some? && e.endYear.value != 0 && !e.current.GetOr(false) ==>
      HandleSubmit(LoadedForm(e)).input.endYear == Some(Num(e.endYear.value))
    ensures e.current.GetOr(false) ==> HandleSubmit(LoadedForm(e)).input.endYear.None?
  {
    ParseIntOfIntToString(e.startYear.value);
    if e.endYear.Some? && e.endYear.value != 0 {
      ParseIntOfIntToString(e.endYear.value);
    }
  }

  /** The optional texts of a stored record come back as they were, with "" sent as `null`. */
  lemma LoadedTextsRoundTrip(e: EducationRecord)
    ensures var input := ShapeInput(LoadedForm(e));
      && (input.field == if e.field == Some("") then None else e.field)
      && (input.grade == if e.grade == Some("") then None else e.grade)
      && (input.description == if e.description == Some("") then None else e.description)
  {
  }

  /** The dialog's component state. */
  class EducationEditor {
    var form: EducationForm
    var newAchievement: string
    var newCourse: string

    constructor ()
      ensures form == EmptyForm && newAchievement == "" && newCourse == ""
    {
      form := EmptyForm;
      newAchievement := "";
      newCourse := "";
    }

    /** The effect run when an existing record is opened. */
    method Load(e: EducationRecord)
      modifies this
      ensures form == LoadedForm(e)
      ensures newAchievement == old(newAchievement) && newCourse == old(newCourse)
    {
      form := LoadedForm(e);
    }

    /**
     * `handleChange`: the named field takes the input's value, or the checkbox's state; checking
     * `current` then clears `endYear` in a second update.
     */
    method HandleChange(e: FieldEdit)
      modifies this
      ensures e.TextEdit? ==> form == SetText(old(form), e.field, e.value)
      ensures e == FlagEdit(Current, true) ==> form == old(form).(current := true, endYear := "")
      ensures e == FlagEdit(Current, false) ==> form == old(form).(current := false)
      ensures e.FlagEdit? && e.flag == IsVisible ==> form == old(form).(isVisible := Some(e.checked))
      ensures newAchievement == old(newAchievement) && newCourse == old(newCourse)
    {
      match e
      case TextEdit(field, value) =>
        form := SetText(form, field, value);
      case FlagEdit(Current, checked) =>
        form := form.(current := checked);
        if checked {
          form := form.(endYear := "");
        }
      case FlagEdit(IsVisible, checked) =>
        form := form.(isVisible := Some(checked));
    }

    method SetNewAchievement(value: string)
      modifies this
      ensures newAchievement == value && form == old(form) && newCourse == old(newCourse)
    {
      newAchievement := value;
    }

    method SetNewCourse(value: string)
      modifies this
      ensures newCourse == value && form == old(form) && newAchievement == old(newAchievement)
    {
      newCourse := value;
    }

    /** `addAchievement`: the trimmed input is appended unless it is blank, and then cleared. */
    method AddAchievement()
      modifies this
      ensures form == old(form).(achievements := TextLists.AddNonBlank(old(form.achievements), old(newAchievement)))
      ensures newAchievement == if Blank(old(newAchievement)) then old(newAchievement) else ""
      ensures newCourse == old(newCourse)
    {
      TrimEmptyIffBlank(newAchievement);
      if Trim(newAchievement) != "" {
        form := form.(achievements := TextLists.AddNonBlank(form.achievements, newAchievement));
        newAchievement := "";
      }
    }

    /** `removeAchievement(index)`: exactly that position goes. */
    method RemoveAchievement(index: int)
      modifies this
      ensures form == old(form).(achievements := Lists.RemoveIndex(old(form.achievements), index))
      ensures newAchievement == old(newAchievement) && newCourse == old(newCourse)
    {
      form := form.(achievements := Lists.RemoveIndex(form.achievements, index));
    }

    /** `addCourse`: the trimmed input is appended unless it is blank, and then cleared. */
    method AddCourse()
      modifies this
      ensures form == old(form).(coursework := TextLists.AddNonBlank(old(form.coursework), old(newCourse)))
      ensures newCourse == if Blank(old(newCourse)) then old(newCourse) else ""
      ensures newAchievement == old(newAchievement)
    {
      TrimEmptyIffBlank(newCourse);
      if Trim(newCourse) != "" {
        form := form.(coursework := TextLists.AddNonBlank(form.coursework, newCourse));
        newCourse := "";
      }
    }

    /** `removeCourse(index)`: exactly that position goes. */
    method RemoveCourse(index: int)
      modifies this
      ensures form == old(form).(coursework := Lists.RemoveIndex(old(form.coursework), index))
      ensures newAchievement == old(newAchievement) && newCourse == old(newCourse)
    {
      form := form.(coursework := Lists.RemoveIndex(form.coursework, index));
    }
  }

  /** Once `current` is checked, the submitted end year is `null` whatever was typed before. */
  lemma CheckingCurrentDropsEndYear(f: EducationForm)
    ensures ShapeInput(f.(current := true, endYear := "")).endYear.None?
    ensures ShapeInput(f.(current := true)).endYear.None?
  {
  }
}
