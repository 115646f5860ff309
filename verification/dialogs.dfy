/** The form dialog of the admin users page and of the gestor projects page:
    a component that stays mounted for the whole life of the page, is opened
    in turn on an existing row or for a new one, and keeps its values in a
    react-hook-form `useForm` whose `defaultValues` name the row it was
    opened on. */
module Dialogs {

  /** What happens to the dialog, in order. */
  datatype Event<U, F> =
    | OpenEdit(row: U)     // the edit button of a row
    | OpenNew              // the "new" button
    | Typed(values: F)     // the fields as the user left them
    | Closed               // cancel, or the close after a save

  predicate Untyped<U, F>(evs: seq<Event<U, F>>)
  {
    forall i :: 0 <= i < |evs| ==> !evs[i].Typed?
  }

  /** The values the form holds after `evs`, as written: `useForm` reads
      `defaultValues` once, on the first render, when no row is being
      edited (`mount`); nothing resets the form afterwards, so only typing
      changes it, and opening it on a row does not. */
  function Held<U, F>(mount: F, evs: seq<Event<U, F>>): (f: F)
    ensures Untyped(evs) ==> f == mount
    ensures !Untyped(evs) ==> exists i :: 0 <= i < |evs| && evs[i].Typed? && evs[i].values == f
    decreases |evs|
  {
    if |evs| == 0 then mount
    else
      var init := evs[..|evs| - 1];
      assert forall i :: 0 <= i < |init| ==> init[i] == evs[i];
      match evs[|evs| - 1]
      case Typed(v) => v
      case _ => Held(mount, init)
  }

  /** Opening the dialog, on any row, leaves what it shows unchanged. */
  lemma OpeningKeeps<U, F>(mount: F, evs: seq<Event<U, F>>, u: U)
    ensures Held(mount, evs + [OpenEdit(u)]) == Held(mount, evs)
    ensures Held(mount, evs + [OpenNew]) == Held(mount, evs)
  {
    assert (evs + [OpenEdit(u)])[..|evs|] == evs;
    assert (evs + [OpenNew])[..|evs|] == evs;
  }

  /** The dialog as its `defaultValues` evidently mean it, with the form
      reset whenever it opens: on a row it shows `start(row)`, for a new
      row the blank values `mount`. */
  function HeldIntended<U, F>(mount: F, start: U -> F, evs: seq<Event<U, F>>): (f: F)
    decreases |evs|
  {
    if |evs| == 0 then mount
    else match evs[|evs| - 1]
      case OpenEdit(u) => start(u)
      case OpenNew => mount
      case Typed(v) => v
      case Closed => HeldIntended(mount, start, evs[..|evs| - 1])
  }

  predicate AllClosed<U, F>(evs: seq<Event<U, F>>)
  {
    forall i :: 0 <= i < |evs| ==> evs[i].Closed?
  }

  /** With the reset, a dialog opened on a row and not typed into since
      shows that row's values, whatever was typed before, however often it
      was closed since. The as-written dialog shows what it held before
      the opening. */
  lemma {:induction false} ShowsOpenedRow<U, F>(mount: F, start: U -> F, evs: seq<Event<U, F>>, u: U, later: seq<Event<U, F>>)
    requires AllClosed(later)
    ensures HeldIntended(mount, start, evs + [OpenEdit(u)] + later) == start(u)
    ensures Held(mount, evs + [OpenEdit(u)] + later) == Held(mount, evs)
    decreases |later|
  {
    var all := evs + [OpenEdit(u)] + later;
    if |later| == 0 {
      assert all == evs + [OpenEdit(u)];
      OpeningKeeps(mount, evs, u);
    } else {
      var init := evs + [OpenEdit(u)] + later[..|later| - 1];
      assert all[..|all| - 1] == init;
      assert all[|all| - 1] == later[|later| - 1];
      assert later[|later| - 1].Closed?;
      ShowsOpenedRow(mount, start, evs, u, later[..|later| - 1]);
    }
  }
}
