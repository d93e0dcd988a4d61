/** calculate_omni (scripts/omni_quicklook_sep.py): the differential flux grid
    of a flux map is masked in place. Cells whose trajectory stays inside the
    14.99 Earth-radius boundary are zeroed unless the initial energies are used,
    and with a field of view the cells seen at less than 90 degrees are zeroed
    too. The base flux (pp.map_flux) and the instrument angles (instrFOV) enter
    as grids; the final integration (pp.get_omni_flux) is not part of this
    model. */
module QuickLook {
  import opened Common
  import opened MapFile
  import Cutoffs

  /** The instrument angle below which a cell is outside the field of view. */
  const FovLimit: real := 90.0

  /** Whether calculate_omni sets the cell at final position x and instrument
      angle a to zero. */
  predicate Masked(x: Vec, a: real, fov: bool, initialE: bool)
  {
    (!initialE && !Cutoffs.Reaches(x)) || (fov && a < FovLimit)
  }

  /** The whole masking pass. With initialE the map's final energies become its
      initial energies (the same grid, as the dictionary assignment makes them)
      and no access mask is applied; without it every cell whose trajectory does
      not reach the boundary is zeroed. With fov the cells at an instrument angle
      below 90 degrees are zeroed as well. Every other cell keeps its flux. */
  method CalculateOmni(fm: FluxMap, diffFlux: array2<real>, fovAngles: array2<real>, fov: bool, initialE: bool)
    requires fm.Valid()
    requires diffFlux.Length0 == fm.finalX.Length0 && diffFlux.Length1 == fm.finalX.Length1
    requires fovAngles.Length0 == diffFlux.Length0 && fovAngles.Length1 == diffFlux.Length1
    requires diffFlux != fovAngles && diffFlux != fm.initE && diffFlux != fm.finalE
    modifies diffFlux, fm`finalE
    ensures fm.Valid()
    ensures initialE ==> fm.finalE == fm.initE
    ensures !initialE ==> fm.finalE == old(fm.finalE)
    ensures forall i, j :: 0 <= i < diffFlux.Length0 && 0 <= j < diffFlux.Length1 ==>
              (Masked(fm.finalX[i, j], fovAngles[i, j], fov, initialE) ==> diffFlux[i, j] == 0.0)
    ensures forall i, j :: 0 <= i < diffFlux.Length0 && 0 <= j < diffFlux.Length1 ==>
              (!Masked(fm.finalX[i, j], fovAngles[i, j], fov, initialE) ==> diffFlux[i, j] == old(diffFlux[i, j]))
  {
    if initialE {
      fm.finalE := fm.initE;
    }
    if !initialE {
      MaskUnreached(fm.finalX, diffFlux);
    }
    if fov {
      MaskOutsideView(fovAngles, diffFlux);
    }
  }

  /** The nested loop over (idx, jdx): a cell whose trajectory does not reach
      the boundary is set to 0, every other cell is skipped. */
  method MaskUnreached(finalX: array2<Vec>, diffFlux: array2<real>)
    requires diffFlux.Length0 == finalX.Length0 && diffFlux.Length1 == finalX.Length1
    modifies diffFlux
    ensures forall i, j :: 0 <= i < diffFlux.Length0 && 0 <= j < diffFlux.Length1 ==>
              diffFlux[i, j] == (if Cutoffs.Reaches(finalX[i, j]) then old(diffFlux[i, j]) else 0.0)
  {
    var nener, nalph := diffFlux.Length0, diffFlux.Length1;
    for idx := 0 to nener
      invariant forall i, j :: 0 <= i < idx && 0 <= j < nalph ==>
                  diffFlux[i, j] == (if Cutoffs.Reaches(finalX[i, j]) then old(diffFlux[i, j]) else 0.0)
      invariant forall i, j :: idx <= i < nener && 0 <= j < nalph ==> diffFlux[i, j] == old(diffFlux[i, j])
    {
      for jdx := 0 to nalph
        invariant forall i, j :: 0 <= i < idx && 0 <= j < nalph ==>
                    diffFlux[i, j] == (if Cutoffs.Reaches(finalX[i, j]) then old(diffFlux[i, j]) else 0.0)
        invariant forall j :: 0 <= j < jdx ==>
                    diffFlux[idx, j] == (if Cutoffs.Reaches(finalX[idx, j]) then old(diffFlux[idx, j]) else 0.0)
        invariant forall i, j :: (idx < i < nener && 0 <= j < nalph) || (i == idx && jdx <= j < nalph) ==>
                    diffFlux[i, j] == old(diffFlux[i, j])
      {
        if !Cutoffs.Reaches(finalX[idx, jdx]) {
          diffFlux[idx, jdx] := 0.0;
        }
      }
    }
  }

  /** diff_flux[angles < 90] = 0: the boolean-mask assignment, cell by cell. */
  method MaskOutsideView(fovAngles: array2<real>, diffFlux: array2<real>)
    requires fovAngles.Length0 == diffFlux.Length0 && fovAngles.Length1 == diffFlux.Length1
    requires fovAngles != diffFlux
    modifies diffFlux
    ensures forall i, j :: 0 <= i < diffFlux.Length0 && 0 <= j < diffFlux.Length1 ==>
              diffFlux[i, j] == (if fovAngles[i, j] < FovLimit then 0.0 else old(diffFlux[i, j]))
  {
    var nener, nalph := diffFlux.Length0, diffFlux.Length1;
    for idx := 0 to nener
      invariant forall i, j :: 0 <= i < idx && 0 <= j < nalph ==>
                  diffFlux[i, j] == (if fovAngles[i, j] < FovLimit then 0.0 else old(diffFlux[i, j]))
      invariant forall i, j :: idx <= i < nener && 0 <= j < nalph ==> diffFlux[i, j] == old(diffFlux[i, j])
    {
      for jdx := 0 to nalph
        invariant forall i, j :: 0 <= i < idx && 0 <= j < nalph ==>
                    diffFlux[i, j] == (if fovAngles[i, j] < FovLimit then 0.0 else old(diffFlux[i, j]))
        invariant forall j :: 0 <= j < jdx ==>
                    diffFlux[idx, j] == (if fovAngles[idx, j] < FovLimit then 0.0 else old(diffFlux[idx, j]))
        invariant forall i, j :: (idx < i < nener && 0 <= j < nalph) || (i == idx && jdx <= j < nalph) ==>
                    diffFlux[i, j] == old(diffFlux[i, j])
      {
        if fovAngles[idx, jdx] < FovLimit {
          diffFlux[idx, jdx] := 0.0;
        }
      }
    }
  }
}
