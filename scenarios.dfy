/** The demo screen's pickers, driven through the contracts of `Picker.PickerView` alone. */
module Scenarios {
  import opened Wrappers
  import ListSelection
  import AreaSelection
  import opened Picker

  const Units: seq<string> := ["0", "1", "2", "3", "4", "5", "6", "7", "8", "9",
                               "10", "11", "12", "13", "14", "15", "16", "17", "18", "19"]
  const Tenths: seq<string> := [".0", ".1", ".2", ".3", ".4", ".5", ".6", ".7", ".8", ".9",
                                ".10", ".11", ".12", ".13", ".14", ".15", ".16", ".17", ".18", ".19"]

  /** One column of twenty rows, shown at row 3. */
  method AlonePicker()
  {
    var picker := new PickerView.FromDataSources([Units]);
    assert picker.selectedRowAry == [0] && picker.selectedResultAry == ["0"];
    var events := picker.ShowSelectedRows([3]);
    assert picker.selectedRowAry == [3] && picker.selectedResultAry == ["3"];
    assert events == [SelectRow(3, 0)];
    assert picker.Done() == Some(ListConfirm([3], ["3"]));
  }

  /** The demo's second picker: two columns of twenty rows with ceilings [12, 10], shown at
      rows [3, 4]. */
  method DoublePicker() returns (picker: PickerView)
    ensures fresh(picker) && picker.Valid() && picker.pickerType == DataSource
    ensures picker.dataSourceAry == [Units, Tenths] && picker.maxValueInRowsAry == Some([12, 10])
    ensures picker.selectedRowAry == [3, 4] && picker.selectedResultAry == ["3", ".4"]
  {
    picker := new PickerView.FromDataSources([Units, Tenths]);
    picker.SetMaxValuesInRows([12, 10]);
    var events := picker.ShowSelectedRows([3, 4]);
  }

  /** Above the first ceiling: clamped to 12; the pass stops at column 1 (4 < 10). */
  method DoublePickerClampsFirstColumn()
  {
    var picker := DoublePicker();
    assert ListSelection.ClampStop([15, 4], [12, 10], 0) == 1;
    var events := picker.DidSelectRow(15, 0);
    assert picker.selectedRowAry == [12, 4] && picker.selectedResultAry == ["12", ".4"];
    assert events == [SelectRow(12, 0)];
  }

  /** Picking exactly the first ceiling keeps it; the pass stops at column 1 (4 < 10). */
  method DoublePickerAtFirstCeiling() returns (picker: PickerView)
    ensures fresh(picker) && picker.Valid() && picker.pickerType == DataSource
    ensures picker.dataSourceAry == [Units, Tenths] && picker.maxValueInRowsAry == Some([12, 10])
    ensures picker.selectedRowAry == [12, 4] && picker.selectedResultAry == ["12", ".4"]
  {
    picker := DoublePicker();
    assert ListSelection.ClampStop([12, 4], [12, 10], 0) == 1;
    var events := picker.DidSelectRow(12, 0);
  }

  /** At the first ceiling the second ceiling applies as well. */
  method DoublePickerClampsBothColumns()
  {
    var picker := DoublePickerAtFirstCeiling();
    assert ListSelection.ClampStop([12, 15], [12, 10], 0) == 2;
    var events := picker.DidSelectRow(15, 1);
    assert picker.selectedRowAry == [12, 10] && picker.selectedResultAry == ["12", ".10"];
    assert events == [SelectRow(12, 0), SelectRow(10, 1)];
  }

  /** Below the first ceiling nothing is clamped, not even column 1 above its own ceiling. */
  method DoublePickerBelowFirstCeiling()
  {
    var picker := DoublePicker();
    assert ListSelection.ClampStop([3, 15], [12, 10], 0) == 0;
    var events := picker.DidSelectRow(15, 1);
    assert picker.selectedRowAry == [3, 15] && picker.selectedResultAry == ["3", ".15"];
    assert events == [];
  }

  /** A negative row ends a jump: column 0 moves, column 1 does not; no clamp follows. */
  method DoublePickerJumpStopsAtNegative()
  {
    var picker := DoublePicker();
    assert ListSelection.FirstNegative([17, -1]) == 1;
    var events := picker.ShowSelectedRows([17, -1]);
    assert picker.selectedRowAry == [17, 4] && picker.selectedResultAry == ["17", ".4"];
    assert events == [SelectRow(17, 0)];
  }

  /** A ceiling list or a row list of the wrong length is ignored. */
  method DoublePickerRejectsWrongLength()
  {
    var picker := DoublePicker();
    picker.SetMaxValuesInRows([1]);
    assert picker.maxValueInRowsAry == Some([12, 10]);
    var events := picker.ShowSelectedRows([1]);
    assert picker.selectedRowAry == [3, 4] && events == [];
  }

  const Hangzhou := AreaSelection.City(Some("Hangzhou"), Some(["Xihu", "Binjiang"]))
  const Ningbo := AreaSelection.City(Some("Ningbo"), None)
  const Zhejiang := AreaSelection.Province(Some("Zhejiang"), Some([Hangzhou, Ningbo]))
  const Macau := AreaSelection.Province(Some("Macau"), None)

  /** A three-wheel area picker over a two-province dataset. */
  method AreaPicker()
  {
    var picker := new PickerView.FromAreaType(AreaSelection.ProvinceCityDistrict, [Zhejiang, Macau]);
    assert picker.Done() == Some(AreaConfirm(Some("Zhejiang"), Some("Hangzhou"), Some("Xihu")));
    assert picker.NumberOfComponents() == 3 && picker.NumberOfRowsInComponent(2) == 2;

    var events := picker.DidSelectRow(1, 1);
    assert picker.city == Some("Ningbo") && picker.district == None;
    assert picker.districts == ["Xihu", "Binjiang"];
    assert events == ResetWheel(2);

    // A province without a cities list clears the names and keeps the old lists.
    events := picker.DidSelectRow(1, 0);
    assert picker.Done() == Some(AreaConfirm(Some("Macau"), None, None));
    assert picker.cities == [Hangzhou, Ningbo];
    assert events == ResetWheel(1) + ResetWheel(2);

    // Picking from the kept city list then confirms names from two provinces.
    events := picker.DidSelectRow(0, 1);
    assert picker.Done() == Some(AreaConfirm(Some("Macau"), Some("Hangzhou"), Some("Xihu")));
  }

  /** On data where a province has no cities list, selecting that province and then a city of
      the kept list yields a selection whose names come from two provinces: the coherence that
      complete data guarantees does not hold here. */
  lemma MixedProvincePayload()
    ensures var r := AreaSelection.Replay(AreaSelection.ProvinceCityDistrict, [Zhejiang, Macau],
                                          AreaSelection.Initial(AreaSelection.ProvinceCityDistrict, [Zhejiang, Macau]), [(1, 0), (0, 1)]);
      && r.Some?
      && (r.value.province, r.value.city, r.value.district) == (Some("Macau"), Some("Hangzhou"), Some("Xihu"))
      && !AreaSelection.Coherent([Zhejiang, Macau], r.value)
  {
    var source := [Zhejiang, Macau];
    var s0 := AreaSelection.Initial(AreaSelection.ProvinceCityDistrict, source);
    var s1 := AreaSelection.Select(AreaSelection.ProvinceCityDistrict, source, s0, 1, 0);
    var s2 := AreaSelection.Select(AreaSelection.ProvinceCityDistrict, source, s1, 0, 1);
    assert s1.province == Some("Macau") && s1.cities == [Hangzhou, Ningbo];
    assert s2.province == Some("Macau") && s2.city == Some("Hangzhou") && s2.district == Some("Xihu");
    assert AreaSelection.Replay(AreaSelection.ProvinceCityDistrict, source, s0, [(1, 0), (0, 1)]) == Some(s2) by {
      assert [(1, 0), (0, 1)][1..] == [(0, 1)];
      assert [(0, 1)][1..] == [];
    }
  }

  /** A two-wheel area picker never reports a district. */
  method TwoLevelAreaPicker()
  {
    var picker := new PickerView.FromAreaType(AreaSelection.ProvinceCity, [Zhejiang]);
    assert picker.NumberOfComponents() == 2;
    var events := picker.DidSelectRow(0, 1);
    events := picker.DidSelectRow(0, 2);
    assert events == [];
    assert picker.Done() == Some(AreaConfirm(Some("Zhejiang"), Some("Hangzhou"), None));
  }

  /** A date picker has no wheels of its own and ignores list commands. */
  method DatePicker()
  {
    var picker := new PickerView.FromDateMode();
    assert picker.NumberOfComponents() == 0;
    picker.SetMaxValuesInRows([]);
    assert picker.maxValueInRowsAry == None;
    var events := picker.ShowSelectedRows([]);
    assert events == [];
  }
}
