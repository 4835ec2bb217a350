/** One install that loses a mount: the example behind `WholeInstall.EarlierMountIsLost`. */
module LostMount {
  import opened Text
  import opened Mounts
  import opened Rec = Recipe
  import opened H = Host
  import opened WholeInstall

  function Example(): Loaded {
    var recipe := Recipe(2, Image(Bootc, "q/a", "", ""), Target("/dev/a", Ext4, false, DefaultBootloader),
      Security(Unencrypted, "", "", NoMok, ""),
      SystemConfig("a", "", "", "", [], false, KeySource("", ""), None));
    Loaded(recipe, false, false, false)
  }

  function Plain(): Machine {
    Machine(false, false, false, _ => Missing, _ => None, None)
  }

  lemma ExampleIsValid()
    ensures Issues(Example(), Plain()) == []
  {
    hide Issues;
    ValidExactlyWhen(Example(), Plain());
  }

  /** An earlier run that was killed has left its target mounted; a retype that fails costs it,
      though every release succeeds. */
  method EarlierTargetIsLost() returns (before: seq<Mount>, after: seq<Mount>, denied: seq<Denial>)
    ensures before == [Mount(Block("/dev/b"), ["run", "firn", "target"])] && after == [] && denied == []
  {
    var dir := ["run", "firn", "target"];
    before := [Mount(Block("/dev/b"), dir)];
    ExampleIsValid();
    TreeOnTop([], before[0], []);
    assert [] + [before[0]] + [] == before;
    after, denied := EarlierMountIsLost(Example(), Plain(), before, dir, ["scratch"]);
  }
}
