// The settings of src/main.cpp that several components share.
module Controller {

  datatype ControllerType = Ds4 | DualSense | Passthrough | Hidden

  /** controller_type_emulates */
  predicate Emulates(t: ControllerType) {
    t.Ds4? || t.DualSense?
  }

  /** controller_type_hides_physical */
  predicate HidesPhysical(t: ControllerType) {
    !t.Passthrough?
  }

  datatype Backend = Uhid | FunctionFs

  datatype HideMethod = Legacy | Unbind
}
