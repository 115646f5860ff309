/** The issues a zod schema reports for a form, and what the form shows of
    them: `zodResolver` keeps, for each path, the first issue at that path
    (react-hook-form's resolver runs without `criteriaMode: 'all'`), and a
    field's `<FormMessage />` shows the message kept at the field's name. */
module Forms {

  import opened Wrappers
  import opened Seqs

  /** One issue: the path it is reported at (the field's name, or `""` for
      a refine of the whole object that names no `path`) and its message. */
  datatype Issue = Issue(path: string, message: string)

  /** The path of an issue raised by a refine without a `path`. */
  const Root := ""

  function AtPath(path: string): Issue -> bool
  {
    (i: Issue) => i.path == path
  }

  /** The message the form keeps for `path`. */
  function FirstAt(issues: seq<Issue>, path: string): (r: Option<string>)
    ensures r.None? <==> forall i :: i in issues ==> i.path != path
    ensures r.Some? ==> Issue(path, r.value) in issues
  {
    var found := Find(issues, AtPath(path));
    if found.Some? then Some(found.value.message) else None
  }

  /** The message kept is that of the first issue at `path`: no earlier
      issue is at `path`. */
  lemma FirstAtIsFirst(issues: seq<Issue>, path: string)
    requires FirstAt(issues, path).Some?
    ensures exists k :: && 0 <= k < |issues| && issues[k] == Issue(path, FirstAt(issues, path).value)
                        && forall j :: 0 <= j < k ==> issues[j].path != path
  {
    var found := Find(issues, AtPath(path));
    var k :| 0 <= k < |issues| && issues[k] == found.value && forall j :: 0 <= j < k ==> !AtPath(path)(issues[j]);
  }

  /** The message kept for `path` over two lists of issues reported in
      turn is the first list's, if it has one. */
  lemma FirstAtAppend(a: seq<Issue>, b: seq<Issue>, path: string)
    ensures FirstAt(a + b, path) == if FirstAt(a, path).Some? then FirstAt(a, path) else FirstAt(b, path)
  {
    FindAppend(a, b, AtPath(path));
  }
}
