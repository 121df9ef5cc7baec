/** The libraries the converter calls but does not implement: encoding/json,
    go-difflib, terraform-json's sanitizer and the `%q` / `%v` verbs of fmt.
    They are passed around as one record of total functions, so every property
    proved with a `Lib` parameter holds whatever those libraries do. */
module Foreign {
  import opened Wrappers
  import opened Tfjson

  datatype Lib = Lib(
    valid: string -> bool,                        // json.Valid
    unmarshals: string -> bool,                   // json.Unmarshal into a json.RawMessage succeeds
    indent: string -> Option<string>,             // json.MarshalIndent of a raw message, prefix "", indent "  "
    marshal: (Json, bool) -> Option<string>,      // two-space indented serialisation; the flag turns HTML escaping on
    parse: string -> Option<Plan>,                // decoding a plan document
    sanitize: Plan -> Option<Plan>,               // sanitize.SanitizePlan
    unifiedDiff: (string, string, nat) -> Option<string>, // difflib.GetUnifiedDiffString over SplitLines, with a context size
    quote: string -> string,                      // fmt's %q
    show: Json -> string)                         // fmt's %v

  /** json.Encoder with SetIndent("", "  ") and SetEscapeHTML(escapeHTML):
      the indented text followed by a newline. */
  function Encode(lib: Lib, v: Json, escapeHTML: bool): (r: Option<string>)
    ensures r.Some? <==> lib.marshal(v, escapeHTML).Some?
    ensures r.Some? ==> r.value == lib.marshal(v, escapeHTML).value + "\n"
  {
    match lib.marshal(v, escapeHTML)
    case None => None
    case Some(t) => Some(t + "\n")
  }

  /** json.MarshalIndent(v, "", "  "): no trailing newline, HTML escaping on. */
  function MarshalIndent(lib: Lib, v: Json): Option<string>
  {
    lib.marshal(v, true)
  }
}
