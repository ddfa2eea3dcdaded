/** The diagnostics the configuration reader exits with. Each names the section at
    fault; the reader's one error path for views reuses the wording of the module
    error, which `ConfigMessageAsWritten` keeps and `ConfigMessage` corrects. */
module Messages {
  import opened Exits

  /** The faults `parse_config_file` stops with. */
  predicate IsConfigFault(f: Fatal) {
    f.MissingType? || f.UnknownType? || f.ModuleAlreadyDefined? || f.MissingPaths? ||
    f.ViewAlreadyDefined? || f.MissingQuery?
  }

  /** The text around the section name in the message of each configuration fault,
      as the reader evidently means it. */
  function Frame(f: Fatal): (string, string)
    requires IsConfigFault(f)
  {
    match f
    case MissingType(_) => ("Could not find type in section \"", "\"")
    case UnknownType(_) => ("Type is not module or view in section \"", "\"")
    case ModuleAlreadyDefined(_) => ("Module '", "' already defined")
    case MissingPaths(_) => ("Cannot find paths in module \"", "\"")
    case ViewAlreadyDefined(_) => ("View '", "' already defined")
    case MissingQuery(_) => ("Cannot find query in view \"", "\"")
  }

  /** The message of a configuration fault: its frame around the section name. */
  function ConfigMessage(f: Fatal): (r: Option<string>)
    ensures r.Some? <==> IsConfigFault(f)
  {
    if IsConfigFault(f) then Some(Frame(f).0 + f.section + Frame(f).1) else None
  }

  /** The message as `parse_config_file` writes it: a view without a query is
      reported in the frame of a module without paths. */
  function ConfigMessageAsWritten(f: Fatal): (r: Option<string>)
    ensures r.Some? <==> IsConfigFault(f)
    ensures !f.MissingQuery? ==> r == ConfigMessage(f)
  {
    match f
    case MissingQuery(s) => ConfigMessage(MissingPaths(s))
    case _ => ConfigMessage(f)
  }

  /** As written, the message does not tell a view without a query from a module
      without paths of the same name. */
  lemma ViewFaultReadsAsModuleFault(section: string)
    ensures MissingQuery(section) != MissingPaths(section)
    ensures ConfigMessageAsWritten(MissingQuery(section)) == ConfigMessageAsWritten(MissingPaths(section))
  {
  }

  /** A fixed text around a name determines the name. */
  lemma {:induction false} Unwrap(prefix: string, s: string, t: string, suffix: string)
    requires prefix + s + suffix == prefix + t + suffix
    ensures s == t
  {
    var m := prefix + s + suffix;
    assert m[|prefix|..|m| - |suffix|] == s;
    assert (prefix + t + suffix)[|prefix|..|m| - |suffix|] == t;
  }

  /** The kinds of configuration fault, numbered. */
  function KindNo(f: Fatal): nat
    requires IsConfigFault(f)
  {
    match f
    case MissingType(_) => 0
    case UnknownType(_) => 1
    case ModuleAlreadyDefined(_) => 2
    case MissingPaths(_) => 3
    case ViewAlreadyDefined(_) => 4
    case MissingQuery(_) => 5
  }

  /** Reads the kind of fault back from a message, knowing only the six frames: every
      framed message is at least 13 characters long; the first character sets apart the
      frames beginning "Module", "View" and "Type"; of the three beginning with 'C', the
      second character sets apart "Could" from "Cannot", and the thirteenth sets apart
      "Cannot find paths" from "Cannot find query". Any other string reads as 6. */
  function KindFromMessage(m: string): nat {
    if |m| < 13 then 6
    else if m[0] == 'M' then 2
    else if m[0] == 'V' then 4
    else if m[0] == 'T' then 1
    else if m[1] == 'o' then 0
    else if m[12] == 'p' then 3
    else 5
  }

  /** Reading the kind back from the message of a configuration fault gives that
      fault's kind. */
  lemma KindFromMessageOf(f: Fatal)
    requires IsConfigFault(f)
    ensures KindFromMessage(ConfigMessage(f).value) == KindNo(f)
  {
    var p := Frame(f).0;
    var m := ConfigMessage(f).value;
    assert |m| >= |p| + |Frame(f).1| >= 13;
    assert m[0] == p[0] && m[1] == p[1];
    if |p| > 12 {
      assert m[12] == p[12];
    }
  }

  /** The message tells the kind of fault. */
  lemma SameKind(f: Fatal, g: Fatal)
    requires IsConfigFault(f) && IsConfigFault(g)
    requires ConfigMessage(f) == ConfigMessage(g)
    ensures Frame(f) == Frame(g)
  {
    KindFromMessageOf(f);
    KindFromMessageOf(g);
  }

  /** With the corrected wording, the message determines the fault: kind and section. */
  lemma ConfigMessageInjective(f: Fatal, g: Fatal)
    requires ConfigMessage(f).Some? && ConfigMessage(f) == ConfigMessage(g)
    ensures f == g
  {
    SameKind(f, g);
    Unwrap(Frame(f).0, f.section, g.section, Frame(f).1);
  }
}
