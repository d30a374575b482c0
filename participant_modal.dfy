/**
 * The participant dialog: the record a new participant starts from and the
 * temperature field's clamp. The random colour comes from a helper outside
 * this model, so it is a parameter here.
 */
module ParticipantModal {
  import opened Wrappers
  import opened Chat

  /** The record the dialog starts from: no name, the given colour, temperature 0.2. */
  function DefaultParticipant(color: string): (p: Participant)
    ensures p.name == "" && p.color == color
    ensures p.temperature == 0.2 && 0.0 <= p.temperature <= 2.0
    ensures p.setupPrompt == "" && p.introPrompt == "" && p.model.None?
  {
    Participant("", color, None, 0.2, "", "")
  }

  /**
   * The temperature clamp applied to the parsed field value; None stands for
   * NaN. The result always lies in [0.0, 2.0] and an in-range value is kept.
   */
  function ClampTemperature(input: Option<real>): (t: real)
    ensures 0.0 <= t <= 2.0
    ensures input.None? ==> t == 0.0
    ensures input.Some? && input.value < 0.0 ==> t == 0.0
    ensures input.Some? && input.value > 2.0 ==> t == 2.0
    ensures input.Some? && 0.0 <= input.value <= 2.0 ==> t == input.value
  {
    match input
    case None => 0.0
    case Some(v) => if v < 0.0 then 0.0 else if v > 2.0 then 2.0 else v
  }

  /** Clamping an already clamped temperature changes nothing. */
  lemma ClampTemperatureIdempotent(input: Option<real>)
    ensures ClampTemperature(Some(ClampTemperature(input))) == ClampTemperature(input)
  {
  }

  /** A NaN entry does not bring back the starting temperature: it gives 0.0, not 0.2. */
  lemma NaNTemperatureIsNotDefault(color: string)
    ensures ClampTemperature(None) != DefaultParticipant(color).temperature
  {
  }

  /** The dialog's draft participant, replaced by a copy on every edit. */
  class ParticipantForm {
    var newParticipant: Participant

    ghost predicate Valid()
      reads this
    {
      0.0 <= newParticipant.temperature <= 2.0
    }

    constructor (color: string)
      ensures Valid()
      ensures newParticipant == DefaultParticipant(color)
    {
      newParticipant := DefaultParticipant(color);
    }

    /** The temperature field changed: store a copy with only the clamped temperature replaced. */
    method HandleTemperatureChange(input: Option<real>)
      requires Valid()
      modifies this
      ensures Valid()
      ensures newParticipant.temperature == ClampTemperature(input)
      ensures newParticipant.name == old(newParticipant.name)
      ensures newParticipant.color == old(newParticipant.color)
      ensures newParticipant == old(newParticipant).(temperature := ClampTemperature(input))
    {
      var newTemperature := ClampTemperature(input);
      newParticipant := newParticipant.(temperature := newTemperature);
    }

    /** The name field changed: store a copy with only the name replaced. */
    method HandleNameChange(name: string)
      requires Valid()
      modifies this
      ensures Valid()
      ensures newParticipant == old(newParticipant).(name := name)
    {
      newParticipant := newParticipant.(name := name);
    }
  }
}
