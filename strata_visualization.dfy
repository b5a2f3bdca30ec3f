/**
 * The table of Substrate (Strata) visualization modes offered in the viewport menu:
 * every mode is registered in a full table, and only the modes whose console command
 * is available are copied into the menu table, once, on first use.
 *
 * Mode names are strings; display texts, descriptions and unavailability reasons are
 * their untranslated source strings. Whether Strata, its advanced visualization shaders
 * and opaque rough refraction are enabled are parameters.
 */
module StrataVisualization {

  /** The view modes the table can select; `None` is the answer for an unknown name. */
  datatype StrataViewMode =
    | None
    | MaterialProperties
    | MaterialCount
    | AdvancedMaterialProperties
    | MaterialClassification
    | DecalClassification
    | RoughRefractionClassification
    | StrataInfo
    | MaterialByteCount

  /** One visualization mode. */
  datatype ModeRecord = ModeRecord(
    modeString: string,
    modeName: string,
    modeText: string,
    modeDesc: string,
    viewMode: StrataViewMode,
    defaultComposited: bool,
    availableCommand: bool,
    unavailableReason: string)

  type ModeMap = map<string, ModeRecord>

  /** Stores under the mode's name a record holding exactly the given fields, replacing any earlier one. */
  function AddVisualizationMode(modes: ModeMap, modeString: string, modeText: string, modeDesc: string,
                                viewMode: StrataViewMode, defaultComposited: bool, availableCommand: bool,
                                unavailableReason: string): (r: ModeMap)
    ensures modeString in r
    ensures r[modeString] == ModeRecord(modeString, modeString, modeText, modeDesc, viewMode,
                                        defaultComposited, availableCommand, unavailableReason)
    ensures forall name :: name in modes && name != modeString ==> name in r && r[name] == modes[name]
  {
    modes[modeString := ModeRecord(modeString, modeString, modeText, modeDesc, viewMode,
                                   defaultComposited, availableCommand, unavailableReason)]
  }

  /** Display texts, descriptions and unavailability reasons of the modes, as registered. */
  const MaterialPropertiesText := "Material Properties"
  const MaterialPropertiesDesc := "Visualizes Substrate material properties under mouse cursor"
  const MaterialCountText := "Material Count"
  const MaterialCountDesc := "Visualizes Substrate material count per pixel"
  const AdvancedMaterialPropertiesText := "Advanced Material Properties"
  const AdvancedMaterialPropertiesDesc := "Visualizes Substrate advanced material properties"
  const AdvancedMaterialPropertiesReason :=
    "Substrate advanced debugging r.Substrate.Debug.AdvancedVisualizationShaders is disabled"
  const MaterialClassificationText := "Material Classification"
  const MaterialClassificationDesc := "Visualizes Substrate material classification"
  const DecalClassificationText := "Decal classification"
  const DecalClassificationDesc := "Visualizes Substrate decal classification"
  const DecalClassificationReason :=
    "Substrate tiled DBuffer pass (r.Substrate.DBufferPass and r.Substrate.DBufferPass.DedicatedTiles) is disabled"
  const RoughRefractionText := "Opaque Rough Refraction Classification"
  const RoughRefractionDesc := "Visualizes Substrate Opaque Rough Refraction Classification"
  const RoughRefractionReason := "Substrate rough refraction r.Substrate.OpaqueMaterialRoughRefraction is disabled"
  const SubstrateInfoText := "Substrate Info"
  const SubstrateInfoDesc := "Visualizes Substrate info"
  const MaterialByteCountText := "Material Bytes Count"
  const MaterialByteCountDesc := "Visualizes Substrate material footprint per pixel"
  const NoReason := "None"

  /** Every mode, available or not, given whether the optional debugging features are enabled. */
  function AllModes(advancedVisualization: bool, opaqueRoughRefraction: bool): ModeMap
  {
    var m0 := map[];
    var m1 := AddVisualizationMode(m0, "MaterialProperties", MaterialPropertiesText, MaterialPropertiesDesc,
      MaterialProperties, true, true, NoReason);
    var m2 := AddVisualizationMode(m1, "MaterialCount", MaterialCountText, MaterialCountDesc,
      MaterialCount, true, true, NoReason);
    var m3 := AddVisualizationMode(m2, "AdvancedMaterialProperties", AdvancedMaterialPropertiesText,
      AdvancedMaterialPropertiesDesc, AdvancedMaterialProperties, true, advancedVisualization,
      AdvancedMaterialPropertiesReason);
    var m4 := AddVisualizationMode(m3, "MaterialClassification", MaterialClassificationText,
      MaterialClassificationDesc, MaterialClassification, true, true, NoReason);
    var m5 := AddVisualizationMode(m4, "DecalClassification", DecalClassificationText, DecalClassificationDesc,
      DecalClassification, true, false, DecalClassificationReason);
    var m6 := AddVisualizationMode(m5, "OpaqueRoughRefractionClassification", RoughRefractionText,
      RoughRefractionDesc, RoughRefractionClassification, true, opaqueRoughRefraction, RoughRefractionReason);
    var m7 := AddVisualizationMode(m6, "SubstrateInfo", SubstrateInfoText, SubstrateInfoDesc,
      StrataInfo, true, true, NoReason);
    AddVisualizationMode(m7, "MaterialByteCount", MaterialByteCountText, MaterialByteCountDesc,
      MaterialByteCount, true, true, NoReason)
  }

  /** The records of `modes` whose console command is available, under the same names. */
  function AvailableModes(modes: ModeMap): (r: ModeMap)
    ensures forall name :: name in r <==> name in modes && modes[name].availableCommand
    ensures forall name :: name in r ==> r[name] == modes[name]
  {
    map name | name in modes && modes[name].availableCommand :: modes[name]
  }

  /** The decal classification mode is registered as unavailable, so the menu never offers it. */
  lemma DecalClassificationNeverAvailable(advancedVisualization: bool, opaqueRoughRefraction: bool)
    ensures "DecalClassification" in AllModes(advancedVisualization, opaqueRoughRefraction)
    ensures "DecalClassification" !in AvailableModes(AllModes(advancedVisualization, opaqueRoughRefraction))
  {
  }

  /** The advanced material properties mode is offered exactly when advanced visualization is enabled. */
  lemma AdvancedModeFollowsFeature(advancedVisualization: bool, opaqueRoughRefraction: bool)
    ensures "AdvancedMaterialProperties" in AvailableModes(AllModes(advancedVisualization, opaqueRoughRefraction))
            <==> advancedVisualization
  {
  }

  /** The opaque rough refraction mode is offered exactly when opaque rough refraction is enabled. */
  lemma RoughRefractionModeFollowsFeature(advancedVisualization: bool, opaqueRoughRefraction: bool)
    ensures "OpaqueRoughRefractionClassification" in AvailableModes(AllModes(advancedVisualization, opaqueRoughRefraction))
            <==> opaqueRoughRefraction
  {
  }

  /** The five basic modes are always offered. */
  lemma BasicModesAlwaysAvailable(advancedVisualization: bool, opaqueRoughRefraction: bool)
    ensures var menu := AvailableModes(AllModes(advancedVisualization, opaqueRoughRefraction));
      "MaterialProperties" in menu && "MaterialCount" in menu && "MaterialClassification" in menu &&
      "SubstrateInfo" in menu && "MaterialByteCount" in menu
  {
  }

  /** The process-wide visualization table. */
  class StrataVisualizationData {
    var modeMap: ModeMap
    var isInitialized: bool

    /**
     * Before initialization the menu is empty; every entry is a mode whose console command is
     * available, and the decal classification mode is never among them.
     */
    ghost predicate Valid()
      reads this
    {
      (!isInitialized ==> modeMap == map[]) &&
      (forall name :: name in modeMap ==> modeMap[name].availableCommand) &&
      "DecalClassification" !in modeMap
    }

    constructor ()
      ensures Valid() && !isInitialized && modeMap == map[]
    {
      modeMap := map[];
      isInitialized := false;
    }

    predicate IsInitialized()
      reads this
    {
      isInitialized
    }

    /**
     * Fills the menu from the full table when this is the first call and Strata is
     * enabled; in every case the data counts as initialized afterwards.
     */
    method Initialize(strataEnabled: bool, advancedVisualization: bool, opaqueRoughRefraction: bool)
      requires Valid()
      modifies this
      ensures Valid() && isInitialized
      ensures !old(isInitialized) && strataEnabled ==>
        modeMap == AvailableModes(AllModes(advancedVisualization, opaqueRoughRefraction))
      ensures old(isInitialized) || !strataEnabled ==> modeMap == old(modeMap)
    {
      if !isInitialized && strataEnabled {
        var allModeMap := AllModes(advancedVisualization, opaqueRoughRefraction);
        CopyAvailableModes(allModeMap);
        DecalClassificationNeverAvailable(advancedVisualization, opaqueRoughRefraction);
      }
      isInitialized := true;
    }

    /** The copy loop: each available mode of `all` is emplaced into the (still empty) menu. */
    method CopyAvailableModes(all: ModeMap)
      requires Valid() && !isInitialized
      modifies this`modeMap
      ensures modeMap == AvailableModes(all)
    {
      var remaining := all.Keys;
      while remaining != {}
        invariant remaining <= all.Keys
        invariant modeMap == map name | name in all && name !in remaining && all[name].availableCommand :: all[name]
        decreases remaining
      {
        var name :| name in remaining;
        if all[name].availableCommand {
          modeMap := modeMap[name := all[name]];
        }
        remaining := remaining - {name};
      }
    }

    /** The display text of a mode, or empty text for an unknown name. */
    function GetModeDisplayName(modeName: string): (r: string)
      reads this
      ensures modeName in modeMap ==> r == modeMap[modeName].modeText
      ensures modeName !in modeMap ==> r == ""
    {
      if modeName in modeMap then modeMap[modeName].modeText else ""
    }

    /** The view mode of a mode, or `None` for an unknown name. */
    function GetViewMode(modeName: string): (r: StrataViewMode)
      reads this
      ensures modeName in modeMap ==> r == modeMap[modeName].viewMode
      ensures modeName !in modeMap ==> r == None
    {
      if modeName in modeMap then modeMap[modeName].viewMode else None
    }

    /** Whether a mode is composited by default; false for an unknown name. */
    function GetModeDefaultComposited(modeName: string): (r: bool)
      reads this
      ensures modeName in modeMap ==> r == modeMap[modeName].defaultComposited
      ensures modeName !in modeMap ==> !r
    {
      modeName in modeMap && modeMap[modeName].defaultComposited
    }
  }

  /** The shared table, initialized on first access and returned as is afterwards. */
  method GetStrataVisualizationData(data: StrataVisualizationData, strataEnabled: bool,
                                    advancedVisualization: bool, opaqueRoughRefraction: bool)
    returns (r: StrataVisualizationData)
    requires data.Valid()
    modifies data
    ensures r == data && r.Valid() && r.isInitialized
    ensures old(data.isInitialized) ==> data.modeMap == old(data.modeMap)
    ensures !old(data.isInitialized) && strataEnabled ==>
      data.modeMap == AvailableModes(AllModes(advancedVisualization, opaqueRoughRefraction))
    ensures !old(data.isInitialized) && !strataEnabled ==> data.modeMap == map[]
  {
    if !data.IsInitialized() {
      data.Initialize(strataEnabled, advancedVisualization, opaqueRoughRefraction);
    }
    return data;
  }

  /** Whatever the features, the menu never offers the decal classification: asking for it yields `None`. */
  lemma MenuNeverOffersDecalClassification(data: StrataVisualizationData)
    requires data.Valid()
    ensures data.GetViewMode("DecalClassification") == None
    ensures data.GetModeDisplayName("DecalClassification") == ""
    ensures !data.GetModeDefaultComposited("DecalClassification")
  {
  }
}
