/** A worked run of the form on a small template: two connections, each
    used by one chart. */
module Scenarios {
  import opened Entities
  import opened Selection
  import opened Blocking

  const Alpha := Connection("a", "Alpha", "api", Some("alpha.example"), None, None, None, None)
  const Beta := Connection("b", "Beta", "api", Some("beta.example"), None, None, None, None)
  const ChartX := Chart("x", "X", [Dataset("a")])
  const ChartY := Chart("y", "Y", [Dataset("b")])
  const Sample := Template("t", "Sample", TemplateModel(Some([Alpha, Beta]), Some([ChartX, ChartY])))

  /** The state right after loading the sample template. */
  const Loaded := FormState(map["a" := Fresh(Alpha), "b" := Fresh(Beta)], ["x", "y"])

  /** Loading the sample gives one fresh record per connection and selects
      both charts; "select all" gives the same selection again. */
  lemma LoadSample()
    ensures Init(Sample, FormState(map[], [])) == Loaded
    ensures SelectAll(Sample, Loaded.charts) == ["x", "y"]
  {
    var st := Init(Sample, FormState(map[], []));
    assert st.connections == Loaded.connections by {
      assert [Alpha, Beta][..1] == [Alpha] && [Alpha][..0] == [];
    }
    assert st.charts == Loaded.charts;
  }

  /** With Alpha switched off, chart X reports Alpha as its dependency and
      leaves the selection, while chart Y reports nothing and keeps it. */
  lemma SwitchOffAlpha()
    ensures Dependency(ToggleActive(Loaded.connections, "a"), ChartX, ["x", "y"]) == ("Alpha", ["y"])
    ensures Dependency(ToggleActive(Loaded.connections, "a"), ChartY, ["y"]) == ("", ["y"])
  {
    var m := ToggleActive(Loaded.connections, "a");
    assert BlockingName(m, ChartX.datasets) == "Alpha";
    assert BlockingName(m, ChartY.datasets) == "";
    assert ToggleChart(["x", "y"], "x") == ["y"] by {
      assert IndexOf(["x", "y"], "x") == 0;
    }
  }
}
