/** The operator record both detail parsers' `parse_all` return, without its `metadata` part. */
module Operators {
  import Characteristic
  import Attributes
  import Talents
  import Skills
  import Terms

  datatype Operator = Operator(
    operatorName: string,
    characteristic: Characteristic.Characteristic,
    attributes: Attributes.Attrs,
    talents: seq<Talents.Talent>,
    skills: seq<Skills.Skill>,
    terms: seq<Terms.Term>)
}
