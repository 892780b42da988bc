/** The launcher's items (`apps::Application`), as far as the filter and the
    detail pane use them. */
module Apps {

  /** One desktop application. `score` is the scratch field the filter writes:
      the matcher's score while the item is shown, 0 once it is demoted. */
  datatype Item = Item(
    name: string,
    description: string,
    exec: string,
    terminalExec: bool,
    score: int)

  /** Every item of `s` with its score reset to 0, in order. */
  function Zeroed(s: seq<Item>): (r: seq<Item>)
  {
    seq(|s|, i requires 0 <= i < |s| => s[i].(score := 0))
  }
}
